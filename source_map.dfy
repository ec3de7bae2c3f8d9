/**
 * The Source Map Revision 3 consumer of the inspector front-end
 * (tool/pomelo-admin-web/public/front/CompilerScriptMapping.js, `SourceMapParser`):
 * Base64 VLQ decoding over a character iterator, parsing of the `mappings` text
 * into a table of [line, column, sourceURL, sourceLine, sourceColumn] entries plus
 * per-source reverse tables, and the two lookups over them.
 */
module SourceMap {
  import opened JsRuntime

  const UPPER: string := "ABCDEFGHIJKLMNOPQRSTUVWXYZ"
  const LOWER: string := "abcdefghijklmnopqrstuvwxyz"
  const DECIMAL: string := "0123456789"
  /** The Base64 alphabet, "A".."Z", "a".."z", "0".."9", "+", "/". */
  const BASE64_DIGITS: string := UPPER + LOWER + DECIMAL + "+/"
  const VLQ_BASE_SHIFT: int := 5
  const VLQ_BASE_MASK: int := 31
  const VLQ_CONTINUATION_MASK: int := 32

  /** The character at position `i` of the Base64 alphabet. */
  function Base64Char(i: int): char
    requires 0 <= i < 64
  {
    if i < 26 then ('A' as int + i) as char
    else if i < 52 then ('a' as int + (i - 26)) as char
    else if i < 62 then ('0' as int + (i - 52)) as char
    else if i == 62 then '+' else '/'
  }

  lemma UpperAt(i: int)
    requires 0 <= i < 26
    ensures UPPER[i] as int == 'A' as int + i
  {
  }

  lemma LowerAt(i: int)
    requires 0 <= i < 26
    ensures LOWER[i] as int == 'a' as int + i
  {
  }

  lemma DecimalAt(i: int)
    requires 0 <= i < 10
    ensures DECIMAL[i] as int == '0' as int + i
  {
  }

  lemma Base64CharAt(i: int)
    requires 0 <= i < 64
    ensures BASE64_DIGITS[i] == Base64Char(i)
  {
    if i < 26 {
      UpperAt(i);
      assert BASE64_DIGITS[i] == UPPER[i];
    } else if i < 52 {
      LowerAt(i - 26);
      assert BASE64_DIGITS[i] == LOWER[i - 26];
    } else if i < 62 {
      DecimalAt(i - 52);
      assert BASE64_DIGITS[i] == DECIMAL[i - 52];
    }
  }

  /** A prefix one longer is the prefix and the next element. */
  lemma PrefixSnoc(s: string, i: nat)
    requires i < |s|
    ensures s[..i + 1] == s[..i] + [s[i]]
  {
  }

  /** The index of `c` in the Base64 alphabet, or `None` (`undefined`) for any other character. */
  function Base64Index(c: char): (r: Option<int>)
    ensures r.Some? ==> 0 <= r.value < 64
  {
    if 'A' <= c <= 'Z' then Some(c as int - 'A' as int)
    else if 'a' <= c <= 'z' then Some(26 + (c as int - 'a' as int))
    else if '0' <= c <= '9' then Some(52 + (c as int - '0' as int))
    else if c == '+' then Some(62)
    else if c == '/' then Some(63)
    else None
  }

  /** A character has an index exactly when it is in the alphabet, and the index is its position there. */
  lemma Base64IndexOfDigit(i: int)
    requires 0 <= i < 64
    ensures Base64Index(BASE64_DIGITS[i]) == Some(i)
  {
    Base64CharAt(i);
  }

  lemma Base64IndexInAlphabet(c: char)
    ensures Base64Index(c).Some? <==> c in BASE64_DIGITS
    ensures Base64Index(c).Some? ==> BASE64_DIGITS[Base64Index(c).value] == c
  {
    if c in BASE64_DIGITS {
      var i :| 0 <= i < 64 && BASE64_DIGITS[i] == c;
      Base64IndexOfDigit(i);
    }
    if Base64Index(c).Some? {
      Base64CharAt(Base64Index(c).value);
    }
  }

  /**
   * The `_base64Map` built by the constructor: each of the 64 alphabet characters
   * maps to its position, no other character is a key, and no two keys share an index.
   */
  method BuildBase64Map() returns (m: map<char, int>)
    ensures forall c :: c in m <==> c in BASE64_DIGITS
    ensures forall c :: c in m ==> Base64Index(c) == Some(m[c])
    ensures forall c, d :: c in m && d in m && m[c] == m[d] ==> c == d
    ensures forall i :: 0 <= i < 64 ==> BASE64_DIGITS[i] in m && m[BASE64_DIGITS[i]] == i
  {
    m := map[];
    for i := 0 to |BASE64_DIGITS|
      invariant forall c :: c in m <==> c in BASE64_DIGITS[..i]
      invariant forall c :: c in m ==> Base64Index(c) == Some(m[c])
    {
      Base64IndexOfDigit(i);
      forall c | c in BASE64_DIGITS[..i]
        ensures c != BASE64_DIGITS[i]
      {
        var j :| 0 <= j < i && BASE64_DIGITS[j] == c;
        Base64IndexOfDigit(j);
      }
      PrefixSnoc(BASE64_DIGITS, i);
      m := m[BASE64_DIGITS[i] := i];
    }
    assert BASE64_DIGITS[..|BASE64_DIGITS|] == BASE64_DIGITS;
    forall i | 0 <= i < 64
      ensures BASE64_DIGITS[i] in m && m[BASE64_DIGITS[i]] == i
    {
      Base64IndexOfDigit(i);
    }
  }

  /**
   * Element `i` of a string or array as JavaScript reads it: `charAt(i)` or `a[i]`,
   * with `None` for the empty string or `undefined` outside either end.
   */
  function ElementAt<T>(s: seq<T>, i: int): (r: Option<T>)
    ensures r.Some? <==> 0 <= i < |s|
    ensures r.Some? ==> r.value == s[i]
  {
    if 0 <= i < |s| then Some(s[i]) else None
  }

  /**
   * The digit `_decodeVLQ` reads at `pos`. A missing or non-alphabet character
   * looks up `undefined`, which both masks turn into 0, so it reads as digit 0.
   */
  function DigitAt(text: string, pos: int): (d: int)
    ensures 0 <= d < 64
  {
    match ElementAt(text, pos)
    case None => 0
    case Some(c) => Base64Index(c).GetOr(0)
  }

  /** Positions left before the end, plus one: what every decoding step uses up. */
  function Remaining(text: string, pos: int): nat
  {
    if pos <= |text| then |text| + 1 - pos else 0
  }

  /** The digits one `_decodeVLQ` call reads from `pos`: up to and including the first without the continuation bit. */
  function VlqDigits(text: string, pos: int): (ds: seq<int>)
    ensures |ds| >= 1 && ds[|ds| - 1] < VLQ_CONTINUATION_MASK
    ensures pos + |ds| <= |text| + 1 || |ds| == 1
    decreases Remaining(text, pos)
  {
    var d := DigitAt(text, pos);
    if d < VLQ_CONTINUATION_MASK then [d]
    else [d] + VlqDigits(text, pos + 1)
  }

  /** The accumulated `result` after the digits `ds`: each digit's low five bits shifted by 5 per position. */
  function VlqSum(ds: seq<int>): int
  {
    if ds == [] then 0
    else VlqSum(ds[..|ds| - 1]) + ShiftLeft(ds[|ds| - 1] % 32, 5 * (|ds| - 1))
  }

  /** The sign fix: bit 0 of the int32 `result` is the sign, the rest (shifted right by one) the magnitude. */
  function SignFix(result: int): int
  {
    var r := ToInt32(result);
    var magnitude := r / 2;
    if r % 2 == 1 then -magnitude else magnitude
  }

  /** What `_decodeVLQ` returns and where it leaves the iterator, when called at `pos`. */
  function DecodeAt(text: string, pos: int): (r: (int, int))
    ensures r.1 > pos
    ensures r.1 <= |text| + 1 || r.1 == pos + 1
  {
    var ds := VlqDigits(text, pos);
    (SignFix(VlqSum(ds)), pos + |ds|)
  }

  /** The unsigned value of base-32 digits, least significant first (Source Map Revision 3). */
  function Base32(ds: seq<int>): int
  {
    if ds == [] then 0 else Base32(ds[..|ds| - 1]) + (ds[|ds| - 1] % 32) * Pow2(5 * (|ds| - 1))
  }

  /** The Source Map Revision 3 reading of a VLQ: bit 0 of the unsigned value is the sign. */
  function StandardVlq(ds: seq<int>): int
  {
    var n := Base32(ds);
    if n % 2 == 1 then -(n / 2) else n / 2
  }

  lemma {:induction false} Base32Bound(ds: seq<int>)
    requires forall k :: 0 <= k < |ds| ==> 0 <= ds[k]
    ensures 0 <= Base32(ds) < Pow2(5 * |ds|)
  {
    if ds != [] {
      var n := |ds|;
      Base32Bound(ds[..n - 1]);
      Pow2Add(5 * (n - 1), 5);
      assert Pow2(5) == 32;
      DigitBelow(Base32(ds[..n - 1]), ds[n - 1] % 32, Pow2(5 * (n - 1)));
    }
  }

  /** A value below p, plus a digit below 32 times p, stays below 32 times p. */
  lemma DigitBelow(x: int, d: int, p: int)
    requires 0 <= x < p && 0 <= d < 32
    ensures 0 <= x + d * p < p * 32
  {
    MulMonotone(d, 31, p);
  }


  /** The digits read are the digits at `pos`, `pos + 1`, ...; all but the last carry the continuation bit. */
  lemma {:induction false} VlqDigitsShape(text: string, pos: int)
    ensures forall k :: 0 <= k < |VlqDigits(text, pos)| ==>
              VlqDigits(text, pos)[k] == DigitAt(text, pos + k) && 0 <= VlqDigits(text, pos)[k] < 64
    ensures forall k :: 0 <= k < |VlqDigits(text, pos)| - 1 ==> VlqDigits(text, pos)[k] >= VLQ_CONTINUATION_MASK
    decreases Remaining(text, pos)
  {
    var ds := VlqDigits(text, pos);
    if DigitAt(text, pos) >= VLQ_CONTINUATION_MASK {
      var rest := VlqDigits(text, pos + 1);
      VlqDigitsShape(text, pos + 1);
      assert ds == [DigitAt(text, pos)] + rest;
      forall k | 1 <= k < |ds|
        ensures ds[k] == DigitAt(text, pos + k) && 0 <= ds[k] < 64
        ensures k < |ds| - 1 ==> ds[k] >= VLQ_CONTINUATION_MASK
      {
        var j := k - 1;
        assert ds[k] == rest[j];
        assert pos + 1 + j == pos + k;
      }
    }
  }

  /** A shift below 26 bits of a five-bit digit stays exact: no bit reaches bit 31. */
  lemma {:induction false} ShiftSmall(d: int, s: nat)
    requires 0 <= d < 32 && s <= 25
    ensures ShiftLeft(d, s) == d * Pow2(s)
    decreases s
  {
    if s > 0 {
      ShiftSmall(d, s - 1);
      var p := Pow2(s - 1);
      MulDouble(d, p);
      Pow2Monotone(s, 25);
      Pow2Value25();
      SmallProduct(d, 2 * p);
      assert ShiftLeft(d, s) == ToInt32(2 * ShiftLeft(d, s - 1));
    }
  }

  lemma SmallProduct(d: int, q: int)
    requires 0 <= d < 32 && 1 <= q <= 0x200_0000
    ensures 0 <= d * q < 0x8000_0000
  {
    MulMonotone(d, 31, q);
    MulMonotone(q, 0x200_0000, 31);
  }

  lemma {:induction false} VlqSumShort(ds: seq<int>)
    requires |ds| <= 6
    requires forall k :: 0 <= k < |ds| ==> 0 <= ds[k]
    ensures VlqSum(ds) == Base32(ds)
  {
    if ds != [] {
      var n := |ds|;
      VlqSumShort(ds[..n - 1]);
      ShiftSmall(ds[n - 1] % 32, 5 * (n - 1));
    }
  }

  /**
   * With at most six digits no shift reaches 32 bits and no sum leaves the int32
   * range, so `_decodeVLQ` agrees with Source Map Revision 3.
   */
  lemma VlqShortIsStandard(ds: seq<int>)
    requires |ds| <= 6
    requires forall k :: 0 <= k < |ds| ==> 0 <= ds[k]
    ensures SignFix(VlqSum(ds)) == StandardVlq(ds)
  {
    VlqSumShort(ds);
    Base32Bound(ds);
    Pow2Monotone(5 * |ds|, 30);
    Pow2Value30();
  }

  lemma Pow2Value25()
    ensures Pow2(25) == 0x200_0000
  {
    Pow2Add(16, 9);
    Pow2Value16();
    assert Pow2(9) == 512;
  }

  lemma Pow2Value30()
    ensures Pow2(30) == 0x4000_0000
  {
    Pow2Add(25, 5);
    Pow2Value25();
    assert Pow2(5) == 32;
  }

  lemma Pow2Value16()
    ensures Pow2(16) == 0x1_0000
  {
    Pow2Add(8, 8);
    assert Pow2(8) == 256;
  }

  /** The Source Map Revision 3 VLQ number of `v`: twice its magnitude, plus one when negative. */
  function VlqNumber(v: int): nat
  {
    if v < 0 then -2 * v + 1 else 2 * v
  }

  /** The base-32 digits of `n`, least significant first, with the continuation bit on all but the last. */
  function EncodeDigits(n: nat): (ds: seq<int>)
    ensures |ds| >= 1
    ensures forall k :: 0 <= k < |ds| ==> 0 <= ds[k] < 64
    decreases n
  {
    if n < 32 then [n] else [n % 32 + 32] + EncodeDigits(n / 32)
  }

  /** The Base64 characters of digits. */
  function DigitChars(ds: seq<int>): (r: string)
    requires forall k :: 0 <= k < |ds| ==> 0 <= ds[k] < 64
    ensures |r| == |ds|
    ensures forall k :: 0 <= k < |ds| ==> r[k] == Base64Char(ds[k])
  {
    if ds == [] then [] else [Base64Char(ds[0])] + DigitChars(ds[1..])
  }

  /** A Source Map Revision 3 encoder: the Base64 VLQ text of `v`. */
  function EncodeVlq(v: int): string
  {
    Base64Digits(VlqNumber(v))
  }

  /** The Base64 characters of the digits of `n`, least significant first. */
  function Base64Digits(n: nat): string
    decreases n
  {
    if n < 32 then [Base64Char(n)] else [Base64Char(n % 32 + 32)] + Base64Digits(n / 32)
  }

  /** The characters of the encoding are the characters of its digits. */
  lemma {:induction false} Base64DigitsChars(n: nat)
    ensures Base64Digits(n) == DigitChars(EncodeDigits(n))
    decreases n
  {
    if n >= 32 {
      Base64DigitsChars(n / 32);
      var rest := EncodeDigits(n / 32);
      assert EncodeDigits(n) == [n % 32 + 32] + rest;
      assert ([n % 32 + 32] + rest)[1..] == rest;
    }
  }

  lemma Base64IndexOfChar(i: int)
    requires 0 <= i < 64
    ensures Base64Index(Base64Char(i)) == Some(i)
  {
  }

  /** Reading the characters of encoded digits gives back those digits. */
  lemma {:induction false} VlqDigitsOfEncoding(text: string, pos: int, n: nat)
    requires 0 <= pos && pos + |EncodeDigits(n)| <= |text|
    requires text[pos..pos + |EncodeDigits(n)|] == DigitChars(EncodeDigits(n))
    ensures VlqDigits(text, pos) == EncodeDigits(n)
    decreases n
  {
    var ds := EncodeDigits(n);
    assert text[pos] == Base64Char(ds[0]) by {
      assert text[pos..pos + |ds|][0] == text[pos];
    }
    Base64IndexOfChar(ds[0]);
    if n >= 32 {
      var rest := EncodeDigits(n / 32);
      assert ds == [n % 32 + 32] + rest;
      assert text[pos + 1..pos + 1 + |rest|] == DigitChars(rest) by {
        forall k | 0 <= k < |rest|
          ensures text[pos + 1 + k] == DigitChars(rest)[k]
        {
          assert text[pos..pos + |ds|][k + 1] == text[pos + 1 + k];
        }
      }
      VlqDigitsOfEncoding(text, pos + 1, n / 32);
    }
  }

  /** Base32 read from the front: the first digit is the least significant. */
  lemma {:induction false} Base32Cons(d: int, ds: seq<int>)
    ensures Base32([d] + ds) == d % 32 + 32 * Base32(ds)
    decreases |ds|
  {
    if ds == [] {
      assert [d] + ds == [d];
      assert [d][..0] == [];
    } else {
      var n := |ds|;
      var all := [d] + ds;
      var x, y, p := Base32(ds[..n - 1]), ds[n - 1] % 32, Pow2(5 * (n - 1));
      assert all[..n] == [d] + ds[..n - 1] && all[n] == ds[n - 1];
      Base32Cons(d, ds[..n - 1]);
      Pow2Add(5, 5 * (n - 1));
      assert Pow2(5) == 32;
      assert Pow2(5 * n) == 32 * p;
      assert Base32(all) == d % 32 + 32 * x + y * (32 * p);
      assert Base32(ds) == x + y * p;
      ScaleInside(y, p, 32);
    }
  }

  /** A constant factor moves out of a product. */
  lemma ScaleInside(y: int, p: int, k: int)
    ensures y * (k * p) == k * (y * p)
  {
  }

  lemma {:induction false} EncodeDigitsValue(n: nat)
    ensures Base32(EncodeDigits(n)) == n
    decreases n
  {
    if n < 32 {
      assert [n][..0] == [];
    } else {
      EncodeDigitsValue(n / 32);
      Base32Cons(n % 32 + 32, EncodeDigits(n / 32));
      ModShift(n % 32, 32);
      assert EncodeDigits(n) == [n % 32 + 32] + EncodeDigits(n / 32);
      assert n == n % 32 + 32 * (n / 32);
    }
  }

  lemma {:induction false} EncodeDigitsLength(n: nat, k: nat)
    requires k >= 1 && n < Pow2(5 * k)
    ensures |EncodeDigits(n)| <= k
    decreases n
  {
    Pow2Add(5, 5 * (k - 1));
    assert Pow2(5) == 32;
    if n >= 32 {
      EncodeDigitsLength(n / 32, k - 1);
    }
  }

  /**
   * Round trip: `_decodeVLQ` at the start of an encoded value below 2^29 in
   * magnitude returns that value and stops right after its last digit, whatever follows.
   */
  lemma DecodeEncoded(text: string, pos: int, v: int)
    requires -0x2000_0000 < v < 0x2000_0000
    requires 0 <= pos && pos + |EncodeVlq(v)| <= |text|
    requires text[pos..pos + |EncodeVlq(v)|] == EncodeVlq(v)
    ensures DecodeAt(text, pos) == (v, pos + |EncodeVlq(v)|)
  {
    Base64DigitsChars(VlqNumber(v));
    VlqDigitsOfEncoding(text, pos, VlqNumber(v));
    EncodedDecode(text, pos, v);
  }

  /** Decoding where the encoded digits of `v` are read. */
  lemma EncodedDecode(text: string, pos: int, v: int)
    requires -0x2000_0000 < v < 0x2000_0000
    requires VlqDigits(text, pos) == EncodeDigits(VlqNumber(v))
    ensures DecodeAt(text, pos) == (v, pos + |EncodeVlq(v)|)
  {
    DecodeAtDigits(text, pos, EncodeDigits(VlqNumber(v)));
    EncodedSign(v);
    EncodeVlqLength(v);
  }

  /** One character per digit. */
  lemma EncodeVlqLength(v: int)
    ensures |EncodeVlq(v)| == |EncodeDigits(VlqNumber(v))|
  {
    Base64DigitsChars(VlqNumber(v));
  }

  lemma DecodeAtDigits(text: string, pos: int, ds: seq<int>)
    requires VlqDigits(text, pos) == ds
    ensures DecodeAt(text, pos) == (SignFix(VlqSum(ds)), pos + |ds|)
  {
  }

  /** The sign fix of the accumulated encoded digits of `v` is `v`. */
  lemma EncodedSign(v: int)
    requires -0x2000_0000 < v < 0x2000_0000
    ensures SignFix(VlqSum(EncodeDigits(VlqNumber(v)))) == v
  {
    var n := VlqNumber(v);
    VlqNumberBound(v);
    EncodedValue(n);
    VlqNumberSign(v);
  }

  lemma VlqNumberBound(v: int)
    requires -0x2000_0000 < v < 0x2000_0000
    ensures VlqNumber(v) < 0x4000_0000
  {
  }

  lemma EncodedValue(n: nat)
    requires n < 0x4000_0000
    ensures SignFix(VlqSum(EncodeDigits(n))) == if n % 2 == 1 then -(n / 2) else n / 2
  {
    var ds := EncodeDigits(n);
    Pow2Value30();
    EncodeDigitsLength(n, 6);
    EncodeDigitsValue(n);
    VlqShortIsStandard(ds);
  }

  lemma VlqNumberSign(v: int)
    ensures var n := VlqNumber(v); (if n % 2 == 1 then -(n / 2) else n / 2) == v
  {
  }

  /** A lone digit without the continuation bit: its upper four bits, negated when bit 0 is set. */
  lemma LoneDigit(text: string, pos: int)
    requires DigitAt(text, pos) < VLQ_CONTINUATION_MASK
    ensures var d := DigitAt(text, pos);
            DecodeAt(text, pos) == (if d % 2 == 1 then -(d / 2) else d / 2, pos + 1)
  {
    var d := DigitAt(text, pos);
    assert VlqDigits(text, pos) == [d];
    assert [d][..0] == [];
    ShiftSmall(d, 0);
    assert Pow2(0) == 1;
    assert VlqSum([d]) == d;
    assert ToInt32(d) == d;
  }

  /** 'A' decodes to 0, 'C' to 1 and 'D' to -1. */
  lemma SingleDigitExamples()
    ensures DecodeAt("A", 0).0 == 0 && DecodeAt("C", 0).0 == 1 && DecodeAt("D", 0).0 == -1
  {
    LoneDigit("A", 0);
    LoneDigit("C", 0);
    LoneDigit("D", 0);
  }

  /** `StringCharIterator`: a position over a string that only moves forward. */
  class StringCharIterator {
    const text: string
    var position: int

    constructor (text: string)
      ensures this.text == text && position == 0
    {
      this.text := text;
      position := 0;
    }

    /** `next`: the character at the position (`None` past the end), and the position moves on by one. */
    method Next() returns (c: Option<char>)
      modifies this`position
      ensures c == ElementAt(text, old(position)) && position == old(position) + 1
    {
      c := ElementAt(text, position);
      position := position + 1;
    }

    /** `peek`: the character at the position, without moving. */
    function Peek(): (c: Option<char>)
      reads this`position
      ensures c.Some? <==> 0 <= position < |text|
      ensures c.Some? ==> c.value == text[position]
    {
      ElementAt(text, position)
    }

    /** `hasNext`: the position is before the end. */
    predicate HasNext()
      reads this`position
    {
      position < |text|
    }
  }

  /** `_isSeparator` applied to a `peek` result; the empty string past the end is not a separator. */
  predicate IsSeparator(c: Option<char>)
  {
    c == Some(',') || c == Some(';')
  }

  /** The running values of `_parseMap`. */
  datatype Cursor = Cursor(line: int, column: int, sourceIndex: int, sourceLine: int, sourceColumn: int, nameIndex: int)

  /** One decoded mapping before its source index is resolved to a URL. */
  datatype Entry = Entry(line: int, column: int, sourceIndex: int, sourceLine: int, sourceColumn: int)

  /** The entry pushed for running values `c`. */
  function EntryOf(c: Cursor): Entry
  {
    Entry(c.line, c.column, c.sourceIndex, c.sourceLine, c.sourceColumn)
  }

  /** The inner `while` over ';': each one advances the line and resets the column. */
  function SkipLines(text: string, pos: int, cur: Cursor): (r: (int, Cursor))
    ensures r.0 >= pos
    ensures ElementAt(text, r.0) != Some(';')
    ensures r.1.column == (if r.0 == pos then cur.column else 0)
    ensures r.1 == cur.(line := cur.line + (r.0 - pos), column := r.1.column)
    decreases Remaining(text, pos)
  {
    if ElementAt(text, pos) == Some(';') then SkipLines(text, pos + 1, cur.(line := cur.line + 1, column := 0))
    else (pos, cur)
  }

  /**
   * Whether the generated-column field alone ends the segment. As written the test
   * is only `_isSeparator(peek())`; the `corrected` reading also ends it at the end of
   * the text (see `Segments`).
   */
  predicate SegmentEnds(text: string, pos: int, corrected: bool)
  {
    IsSeparator(ElementAt(text, pos)) || (corrected && !(pos < |text|))
  }

  /**
   * The entries the `while (true)` loop of `_parseMap` appends, from position `pos`
   * with running values `cur`: one top-of-loop step (a ',' or a run of ';', then
   * stop at the end), then a segment.
   */
  function Segments(text: string, pos: int, cur: Cursor, corrected: bool): seq<Entry>
    decreases Remaining(text, pos), 2
  {
    if ElementAt(text, pos) == Some(',') then Segment(text, pos + 1, cur, corrected)
    else
      var (p, c) := SkipLines(text, pos, cur);
      if p >= |text| then [] else Segment(text, p, c, corrected)
  }

  /** One segment at `pos`: the column delta, then, unless the segment ends there, its source fields. */
  function Segment(text: string, pos: int, cur: Cursor, corrected: bool): seq<Entry>
    requires pos <= |text|
    decreases Remaining(text, pos), 1
  {
    var column := DecodeAt(text, pos);
    var c1 := cur.(column := cur.column + column.0);
    if SegmentEnds(text, column.1, corrected) then Segments(text, column.1, c1, corrected)
    else SourceFields(text, pos, column.1, c1, corrected)
  }

  /**
   * The rest of a segment whose column ended at `p1`: the source index, source
   * line and source column deltas, a name index delta unless a separator follows,
   * and one entry for the updated running values.
   */
  function SourceFields(text: string, pos: int, p1: int, cur: Cursor, corrected: bool): seq<Entry>
    requires pos <= |text| && pos < p1
    decreases Remaining(text, pos), 0
  {
    var sourceIndex := DecodeAt(text, p1);
    var sourceLine := DecodeAt(text, sourceIndex.1);
    var sourceColumn := DecodeAt(text, sourceLine.1);
    var name := if IsSeparator(ElementAt(text, sourceColumn.1)) then (0, sourceColumn.1) else DecodeAt(text, sourceColumn.1);
    var c2 := cur.(sourceIndex := cur.sourceIndex + sourceIndex.0, sourceLine := cur.sourceLine + sourceLine.0,
                   sourceColumn := cur.sourceColumn + sourceColumn.0, nameIndex := cur.nameIndex + name.0);
    [EntryOf(c2)] + Segments(text, name.1, c2, corrected)
  }

  /** A `_mappings` entry: [lineNumber, columnNumber, sourceURL, sourceLineNumber, sourceColumnNumber]. */
  datatype Mapping = Mapping(line: int, column: int, sourceURL: Option<string>, sourceLine: int, sourceColumn: int)

  /**
   * A reverse-mapping array: the [line, column] stored under each source line
   * (holes absent) and the JavaScript `length`. Only an array index (0 to 2^32 - 2)
   * moves `length`; other keys are plain properties.
   */
  datatype ReverseTable = ReverseTable(entries: map<int, (int, int)>, length: nat)

  const MAX_ARRAY_LENGTH: int := 0xFFFF_FFFF

  /** `table[k] = v` on an array. */
  function TableWrite(table: ReverseTable, k: int, v: (int, int)): (r: ReverseTable)
    ensures r.entries == table.entries[k := v]
    ensures 0 <= k < MAX_ARRAY_LENGTH ==> r.length == if k >= table.length then k + 1 else table.length
    ensures !(0 <= k < MAX_ARRAY_LENGTH) ==> r.length == table.length
  {
    ReverseTable(table.entries[k := v], if 0 <= k < MAX_ARRAY_LENGTH && k >= table.length then k + 1 else table.length)
  }

  /** The highest array index, 2^32 - 2, grows an empty array to the largest length; 2^32 - 1 is a plain property. */
  lemma TopIndexWrite()
    ensures TableWrite(ReverseTable(map[], 0), 0xFFFF_FFFE, (0, 0)).length == MAX_ARRAY_LENGTH
    ensures TableWrite(ReverseTable(map[], 0), 0xFFFF_FFFF, (0, 0)).length == 0
  {
  }

  /** The part of a source map payload one `_parseMap` call reads. */
  datatype MapData = MapData(sources: seq<string>, sourceRoot: Option<string>, sourcesContent: seq<Option<string>>, mappings: string)

  /** A section of an indexed source map: a map placed at a line and column offset. */
  datatype Section = Section(offsetLine: int, offsetColumn: int, sectionMap: MapData)

  /** A payload either has `sections` or is a single map. */
  datatype Payload = Sections(sections: seq<Section>) | Single(singleMap: MapData)

  predicate TruthyString(s: Option<string>)
  {
    s.Some? && s.value != ""
  }

  /** The URL of source `i`: prefixed by `sourceRoot + "/"` when that is non-empty, then canonicalized. */
  function SourceURLs(m: MapData, canonicalize: string -> string): (urls: seq<string>)
    ensures |urls| == |m.sources|
  {
    seq(|m.sources|, i requires 0 <= i < |m.sources| =>
      canonicalize(if TruthyString(m.sourceRoot) then m.sourceRoot.value + "/" + m.sources[i] else m.sources[i]))
  }

  /** The reverse tables after registering `urls`: an empty array for each URL that has none yet. */
  function Registered(reverse: map<string, ReverseTable>, urls: seq<string>): (r: map<string, ReverseTable>)
    ensures r.Keys == reverse.Keys + (set u | u in urls)
    ensures forall u :: u in reverse ==> r[u] == reverse[u]
    ensures forall u :: u in r && u !in reverse ==> r[u] == ReverseTable(map[], 0)
  {
    map u | u in reverse.Keys + (set u | u in urls) :: if u in reverse then reverse[u] else ReverseTable(map[], 0)
  }

  /** The source contents after registering: a truthy `sourcesContent[i]` is stored under URL i, later ones winning. */
  function Contents(content: map<string, string>, urls: seq<string>, sourcesContent: seq<Option<string>>): map<string, string>
  {
    if urls == [] then content
    else
      var i := |urls| - 1;
      var prev := Contents(content, urls[..i], sourcesContent);
      if i < |sourcesContent| && TruthyString(sourcesContent[i]) then prev[urls[i] := sourcesContent[i].value] else prev
  }

  /**
   * The tables, the source contents and the no-TypeError flag after `_parseMap`
   * of `m` at the given offsets: the sources registered, then every entry of the
   * mappings string recorded in order.
   */
  function ParsedMap(t: Tables, content: map<string, string>, m: MapData, line: int, column: int,
                     canonicalize: string -> string): (Tables, map<string, string>, bool)
  {
    var urls := SourceURLs(m, canonicalize);
    var (t', ok) := RecordAll(Tables(t.mappings, Registered(t.reverse, urls)), urls,
                              Segments(m.mappings, 0, Cursor(line, column, 0, 0, 0, 0), true));
    (t', Contents(content, urls, m.sourcesContent), ok)
  }

  /** `_parseSections`: each section in order, stopping at the first TypeError. */
  function ParsedSections(t: Tables, content: map<string, string>, sections: seq<Section>,
                          canonicalize: string -> string): (Tables, map<string, string>, bool)
  {
    if sections == [] then (t, content, true)
    else
      var prev := ParsedSections(t, content, sections[..|sections| - 1], canonicalize);
      var last := sections[|sections| - 1];
      if !prev.2 then prev
      else ParsedMap(prev.0, prev.1, last.sectionMap, last.offsetLine, last.offsetColumn, canonicalize)
  }

  /** `_parseMappingPayload`: a payload with `sections` (even an empty list) is read section by section. */
  function ParsedPayload(t: Tables, content: map<string, string>, payload: Payload,
                         canonicalize: string -> string): (Tables, map<string, string>, bool)
  {
    match payload
    case Sections(sections) => ParsedSections(t, content, sections, canonicalize)
    case Single(m) => ParsedMap(t, content, m, 0, 0, canonicalize)
  }

  /** One more section: read only when no earlier section threw. */
  lemma ParsedSectionsSnoc(t: Tables, content: map<string, string>, sections: seq<Section>, i: nat,
                           canonicalize: string -> string)
    requires i < |sections|
    ensures var prev := ParsedSections(t, content, sections[..i], canonicalize);
            ParsedSections(t, content, sections[..i + 1], canonicalize) ==
              if prev.2 then ParsedMap(prev.0, prev.1, sections[i].sectionMap, sections[i].offsetLine, sections[i].offsetColumn, canonicalize)
              else prev
  {
    assert sections[..i + 1][..i] == sections[..i];
  }

  /** After a section throws, the later sections are not read. */
  lemma {:induction false} ParsedSectionsStops(t: Tables, content: map<string, string>, sections: seq<Section>, k: nat,
                                               canonicalize: string -> string)
    requires k <= |sections| && !ParsedSections(t, content, sections[..k], canonicalize).2
    ensures ParsedSections(t, content, sections, canonicalize) == ParsedSections(t, content, sections[..k], canonicalize)
    decreases |sections| - k
  {
    if k < |sections| {
      assert sections[..k + 1][..k] == sections[..k];
      ParsedSectionsStops(t, content, sections, k + 1, canonicalize);
    } else {
      assert sections[..k] == sections;
    }
  }

  /** The mapping table and the reverse tables together. */
  datatype Tables = Tables(mappings: seq<Mapping>, reverse: map<string, ReverseTable>)

  /**
   * Lines 323-325 for one entry: push the mapping, then write [line, column] under
   * the source line unless the source's array already holds one there. When the
   * source URL has no array (`undefined` is the key then), the write throws a
   * TypeError after the push: `false`.
   */
  function RecordEntry(t: Tables, urls: seq<string>, e: Entry): (r: (Tables, bool))
  {
    var url := ElementAt(urls, e.sourceIndex);
    var mappings := t.mappings + [Mapping(e.line, e.column, url, e.sourceLine, e.sourceColumn)];
    var key := url.GetOr("undefined");
    if key !in t.reverse then (Tables(mappings, t.reverse), false)
    else if e.sourceLine in t.reverse[key].entries then (Tables(mappings, t.reverse), true)
    else (Tables(mappings, t.reverse[key := TableWrite(t.reverse[key], e.sourceLine, (e.line, e.column))]), true)
  }

  /** `RecordEntry` for each entry in order, stopping at the first TypeError. */
  function RecordAll(t: Tables, urls: seq<string>, es: seq<Entry>): (r: (Tables, bool))
  {
    if es == [] then (t, true)
    else
      var prev := RecordAll(t, urls, es[..|es| - 1]);
      if !prev.1 then prev else RecordEntry(prev.0, urls, es[|es| - 1])
  }

  /** Recording one more entry: nothing after a TypeError, else `RecordEntry` on the tables so far. */
  lemma RecordAllSnoc(t: Tables, urls: seq<string>, es: seq<Entry>, e: Entry)
    ensures RecordAll(t, urls, es + [e]) ==
              if RecordAll(t, urls, es).1 then RecordEntry(RecordAll(t, urls, es).0, urls, e) else RecordAll(t, urls, es)
  {
    assert (es + [e])[..|es|] == es;
  }

  /**
   * Recording a pushed entry `e` followed by `rest`: the tables after `done + [e]`
   * are `RecordEntry`'s, and a TypeError there stops the rest.
   */
  lemma RecordPush(t0: Tables, urls: seq<string>, done: seq<Entry>, e: Entry, rest: seq<Entry>, t: Tables)
    requires RecordAll(t0, urls, done) == (t, true)
    ensures done + ([e] + rest) == (done + [e]) + rest
    ensures RecordAll(t0, urls, done + [e]) == RecordEntry(t, urls, e)
    ensures !RecordEntry(t, urls, e).1 ==> RecordAll(t0, urls, done + ([e] + rest)) == RecordEntry(t, urls, e)
  {
    RecordAllSnoc(t0, urls, done, e);
    if !RecordEntry(t, urls, e).1 {
      RecordAllStops(t0, urls, done + [e], rest);
    }
  }

  /** Once a TypeError is thrown, later entries change nothing. */
  lemma {:induction false} RecordAllStops(t: Tables, urls: seq<string>, pre: seq<Entry>, post: seq<Entry>)
    requires !RecordAll(t, urls, pre).1
    ensures RecordAll(t, urls, pre + post) == RecordAll(t, urls, pre)
    decreases |post|
  {
    if post == [] {
      assert pre + post == pre;
    } else {
      var all := pre + post;
      assert all[..|all| - 1] == pre + post[..|post| - 1];
      RecordAllStops(t, urls, pre, post[..|post| - 1]);
    }
  }

  /** `SourceMapParser`: the mapping table, the reverse tables by source URL, and the source contents. */
  class SourceMapParser {
    const base64Map: map<char, int>
    var mappings: seq<Mapping>
    var reverse: map<string, ReverseTable>
    var sourceContent: map<string, string>
    var parsed: bool

    ghost predicate Valid()
    {
      forall c :: c in base64Map <==> Base64Index(c).Some? && (c in base64Map ==> Base64Index(c) == Some(base64Map[c]))
    }

    /**
     * `new SourceMapParser(url, payload)`: the Base64 map, empty tables, then the
     * payload read in. `parsed` is false when reading threw the TypeError, after
     * which the constructor's caller gets no parser (the tables are as far as the
     * reading got).
     */
    constructor (payload: Payload, canonicalize: string -> string)
      ensures Valid()
      ensures (Tables(mappings, reverse), sourceContent, parsed) ==
                ParsedPayload(Tables([], map[]), map[], payload, canonicalize)
    {
      var m := BuildBase64Map();
      forall c
        ensures c in m <==> Base64Index(c).Some?
      {
        Base64IndexInAlphabet(c);
      }
      base64Map := m;
      mappings := [];
      reverse := map[];
      sourceContent := map[];
      new;
      parsed := ParsePayload(payload, canonicalize);
    }

    /** `_parseMappingPayload`: each section's map at its offset in order, or the one map at 0, 0. */
    method ParsePayload(payload: Payload, canonicalize: string -> string) returns (ok: bool)
      requires Valid()
      modifies this`mappings, this`reverse, this`sourceContent
      ensures (Tables(mappings, reverse), sourceContent, ok) ==
                ParsedPayload(Tables(old(mappings), old(reverse)), old(sourceContent), payload, canonicalize)
    {
      match payload
      case Single(m) =>
        ok := ParseMap(m, 0, 0, canonicalize);
      case Sections(sections) =>
        ok := ParseSections(sections, canonicalize);
    }

    /** `_parseSections`: `_parseMap` of each section at its offset, until one throws. */
    method ParseSections(sections: seq<Section>, canonicalize: string -> string) returns (ok: bool)
      requires Valid()
      modifies this`mappings, this`reverse, this`sourceContent
      ensures (Tables(mappings, reverse), sourceContent, ok) ==
                ParsedSections(Tables(old(mappings), old(reverse)), old(sourceContent), sections, canonicalize)
    {
      ghost var t0, c0 := Tables(mappings, reverse), sourceContent;
      var i := 0;
      ok := true;
      while i < |sections|
        invariant 0 <= i <= |sections|
        invariant (Tables(mappings, reverse), sourceContent, true) == ParsedSections(t0, c0, sections[..i], canonicalize)
      {
        var section := sections[i];
        ParsedSectionsSnoc(t0, c0, sections, i, canonicalize);
        ok := ParseMap(section.sectionMap, section.offsetLine, section.offsetColumn, canonicalize);
        if !ok {
          ParsedSectionsStops(t0, c0, sections, i + 1, canonicalize);
          return;
        }
        i := i + 1;
      }
      assert sections[..i] == sections;
    }

    /** The `_base64Map` lookup of a `next()` result, with `undefined` read as digit 0 by the masks. */
    function Digit(c: Option<char>): (d: int)
      requires Valid()
      ensures c.None? ==> d == 0
      ensures c.Some? ==> d == Base64Index(c.value).GetOr(0)
    {
      if c.Some? && c.value in base64Map then base64Map[c.value] else 0
    }

    /** Looking up what `next()` returned at `pos` gives the digit at `pos`. */
    lemma DigitOfNext(text: string, pos: int)
      requires Valid()
      ensures Digit(ElementAt(text, pos)) == DigitAt(text, pos)
    {
    }

    /** `_decodeVLQ`: read the unsigned value, then take bit 0 of its int32 form as the sign. */
    method DecodeVLQ(it: StringCharIterator) returns (value: int)
      requires Valid()
      modifies it`position
      ensures (value, it.position) == DecodeAt(it.text, old(it.position))
    {
      var result := ReadUnsigned(it);
      var r := ToInt32(result);
      var negative := r % 2;
      result := r / 2;
      value := if negative == 1 then -result else result;
    }

    /** The first half of `_decodeVLQ`: sum the five-bit groups, each shifted five bits further. */
    method ReadUnsigned(it: StringCharIterator) returns (result: int)
      requires Valid()
      modifies it`position
      ensures result == VlqSum(VlqDigits(it.text, old(it.position)))
      ensures it.position == old(it.position) + |VlqDigits(it.text, old(it.position))|
    {
      ghost var start := it.position;
      result := 0;
      var shift := 0;
      ghost var ds: seq<int> := [];
      while true
        invariant it.position == start + |ds| && shift == 5 * |ds| && result == VlqSum(ds)
        invariant forall j :: 0 <= j < |ds| ==> ds[j] == DigitAt(it.text, start + j) && ds[j] >= VLQ_CONTINUATION_MASK
        decreases Remaining(it.text, it.position)
      {
        ghost var p := it.position;
        var c := it.Next();
        var digit := Digit(c);
        DigitOfNext(it.text, p);
        result := result + ShiftLeft(digit % 32, shift);
        shift := shift + VLQ_BASE_SHIFT;
        VlqSumStep(ds, digit, result);
        if digit < VLQ_CONTINUATION_MASK {
          DigitsRun(it.text, start, ds, digit);
          ds := ds + [digit];
          break;
        }
        ds := ds + [digit];
      }
    }
    /**
     * The source registration of `_parseMap`: the canonical URL of each source, an
     * empty reverse array for each URL that has none yet, and each truthy
     * `sourcesContent[i]` stored under its URL.
     */
    method RegisterSources(m: MapData, canonicalize: string -> string) returns (sources: seq<string>)
      modifies this`reverse, this`sourceContent
      ensures sources == SourceURLs(m, canonicalize)
      ensures reverse == Registered(old(reverse), sources)
      ensures sourceContent == Contents(old(sourceContent), sources, m.sourcesContent)
    {
      sources := [];
      var i := 0;
      while i < |m.sources|
        invariant 0 <= i <= |m.sources|
        invariant |sources| == i
        invariant forall k :: 0 <= k < i ==> sources[k] == SourceURLs(m, canonicalize)[k]
        invariant reverse == Registered(old(reverse), sources)
        invariant sourceContent == Contents(old(sourceContent), sources, m.sourcesContent)
      {
        var sourceURL := m.sources[i];
        if TruthyString(m.sourceRoot) {
          sourceURL := m.sourceRoot.value + "/" + sourceURL;
        }
        var url := canonicalize(sourceURL);
        assert url == SourceURLs(m, canonicalize)[i];
        RegisteredSnoc(old(reverse), sources, url);
        ContentsSnoc(old(sourceContent), sources, url, m.sourcesContent);
        sources := sources + [url];
        if url !in reverse {
          reverse := reverse[url := ReverseTable(map[], 0)];
        }
        if i < |m.sourcesContent| && TruthyString(m.sourcesContent[i]) {
          sourceContent := sourceContent[url := m.sourcesContent[i].value];
        }
        i := i + 1;
      }
      assert sources == SourceURLs(m, canonicalize);
    }

    /**
     * `_parseMap` with the segment test corrected (see `SegmentEnds`): register the
     * sources, then read the mappings string, appending each decoded mapping to the
     * mapping table and recording the first [line, column] per source line. `false`
     * is the TypeError thrown when a mapping's source has no reverse array.
     */
    method ParseMap(m: MapData, lineNumber: int, columnNumber: int, canonicalize: string -> string) returns (ok: bool)
      requires Valid()
      modifies this`mappings, this`reverse, this`sourceContent
      ensures (Tables(mappings, reverse), sourceContent, ok) ==
                ParsedMap(Tables(old(mappings), old(reverse)), old(sourceContent), m, lineNumber, columnNumber, canonicalize)
    {
      var sources := RegisterSources(m, canonicalize);
      ok := ReadMappings(m.mappings, Cursor(lineNumber, columnNumber, 0, 0, 0, 0), sources);
    }

    /**
     * The `while (true)` loop of `_parseMap` over the mappings string, from the
     * running values `start`, with the registered source URLs `sources`.
     */
    method ReadMappings(text: string, start: Cursor, sources: seq<string>) returns (ok: bool)
      requires Valid()
      modifies this`mappings, this`reverse
      ensures (Tables(mappings, reverse), ok) == RecordAll(Tables(old(mappings), old(reverse)), sources, Segments(text, 0, start, true))
    {
      ghost var t0 := Tables(mappings, reverse);
      ghost var all := Segments(text, 0, start, true);
      var cur := start;
      var it := new StringCharIterator(text);
      var sourceURL := ElementAt(sources, cur.sourceIndex);
      ghost var done: seq<Entry> := [];
      ghost var pending := all;
      ok := true;
      while true
        invariant it.text == text && 0 <= it.position
        invariant pending == Segments(text, it.position, cur, true) && all == done + pending
        invariant RecordAll(t0, sources, done) == (Tables(mappings, reverse), true)
        invariant sourceURL == ElementAt(sources, cur.sourceIndex)
        decreases Remaining(text, it.position)
      {
        var more;
        ghost var done', pending';
        cur, sourceURL, more, ok, done', pending' := RecordNext(it, cur, sources, sourceURL, t0, done, pending);
        if !(more && ok) {
          return;
        }
        done, pending := done', pending';
      }
    }

    /**
     * One pass of the `_parseMap` loop with its push: `done` are the entries recorded
     * so far from `t0`. Either the loop goes on with `done'` recorded, or it ends here
     * (at the end of the text, or with the TypeError) with every entry accounted for.
     */
    method RecordNext(it: StringCharIterator, cur: Cursor, sources: seq<string>, sourceURL: Option<string>,
                      ghost t0: Tables, ghost done: seq<Entry>, ghost pending: seq<Entry>)
      returns (next: Cursor, nextURL: Option<string>, more: bool, ok: bool, ghost done': seq<Entry>, ghost pending': seq<Entry>)
      requires Valid() && 0 <= it.position
      requires sourceURL == ElementAt(sources, cur.sourceIndex)
      requires pending == Segments(it.text, it.position, cur, true)
      requires RecordAll(t0, sources, done) == (Tables(mappings, reverse), true)
      modifies it`position, this`mappings, this`reverse
      ensures 0 <= it.position
      ensures nextURL == ElementAt(sources, next.sourceIndex)
      ensures more && ok ==> Remaining(it.text, it.position) < Remaining(it.text, old(it.position))
      ensures more && ok ==> pending' == Segments(it.text, it.position, next, true) && done' + pending' == done + pending
      ensures more && ok ==> RecordAll(t0, sources, done') == (Tables(mappings, reverse), true)
      ensures !(more && ok) ==> RecordAll(t0, sources, done + pending) == (Tables(mappings, reverse), ok)
    {
      var pushed;
      next, nextURL, more, pushed := ReadEntry(it, cur, sources, sourceURL);
      ok := true;
      done', pending' := done, pending;
      if !more {
        assert done + pending == done;
        return;
      }
      pending' := Segments(it.text, it.position, next, true);
      if pushed {
        ok := RecordStep(sources, EntryOf(next), nextURL, t0, done, pending');
        done' := done + [EntryOf(next)];
      }
    }

    /** Recording one pushed entry extends the fold over the entries pushed so far, or ends it with the TypeError. */
    method RecordStep(sources: seq<string>, e: Entry, sourceURL: Option<string>,
                      ghost t0: Tables, ghost done: seq<Entry>, ghost rest: seq<Entry>) returns (ok: bool)
      requires sourceURL == ElementAt(sources, e.sourceIndex)
      requires RecordAll(t0, sources, done) == (Tables(mappings, reverse), true)
      modifies this`mappings, this`reverse
      ensures done + ([e] + rest) == (done + [e]) + rest
      ensures ok ==> RecordAll(t0, sources, done + [e]) == (Tables(mappings, reverse), true)
      ensures !ok ==> RecordAll(t0, sources, done + ([e] + rest)) == (Tables(mappings, reverse), false)
    {
      ghost var t := Tables(mappings, reverse);
      ok := RecordMapping(sources, e, sourceURL);
      RecordPush(t0, sources, done, e, rest, t);
    }

    /** One pass of the `_parseMap` loop: the separators, then (if text remains) one segment. */
    method ReadEntry(it: StringCharIterator, cur: Cursor, sources: seq<string>, sourceURL: Option<string>)
      returns (next: Cursor, nextURL: Option<string>, more: bool, pushed: bool)
      requires Valid() && 0 <= it.position
      requires sourceURL == ElementAt(sources, cur.sourceIndex)
      modifies it`position
      ensures 0 <= it.position
      ensures nextURL == ElementAt(sources, next.sourceIndex)
      ensures more ==> Remaining(it.text, it.position) < Remaining(it.text, old(it.position))
      ensures !more ==> Segments(it.text, old(it.position), cur, true) == []
      ensures more ==> Segments(it.text, old(it.position), cur, true) ==
                         (if pushed then [EntryOf(next)] else []) + Segments(it.text, it.position, next, true)
    {
      nextURL, pushed := sourceURL, false;
      next, more := SkipSeparators(it, cur);
      if !more {
        return;
      }
      next, nextURL, pushed := ReadSegment(it, next, sources, nextURL);
    }

    /**
     * The top of the `_parseMap` loop: skip one ',' or else a run of ';' (each one a
     * new line at column 0); `false` when the text then has no more characters.
     */
    method SkipSeparators(it: StringCharIterator, cur: Cursor) returns (next: Cursor, more: bool)
      requires 0 <= it.position
      modifies it`position
      ensures old(it.position) <= it.position
      ensures next == cur.(line := next.line, column := next.column)
      ensures more ==> it.position <= |it.text| && old(it.position) < |it.text| &&
                       Segments(it.text, old(it.position), cur, true) == Segment(it.text, it.position, next, true)
      ensures !more ==> Segments(it.text, old(it.position), cur, true) == []
    {
      next := cur;
      if it.Peek() == Some(',') {
        var comma := it.Next();
        return next, true;
      }
      ghost var top := it.position;
      while it.Peek() == Some(';')
        invariant top <= it.position
        invariant next == cur.(line := next.line, column := next.column)
        invariant SkipLines(it.text, top, cur) == SkipLines(it.text, it.position, next)
        decreases Remaining(it.text, it.position)
      {
        next := next.(line := next.line + 1, column := 0);
        var semicolon := it.Next();
      }
      more := it.HasNext();
    }

    /**
     * One segment of `_parseMap`: the column delta and, unless the segment ends
     * there, the source index delta (re-fetching the source URL when it is not 0),
     * the source line and column deltas and the optional name delta. `pushed` says
     * whether a mapping is to be recorded for the new running values.
     */
    method ReadSegment(it: StringCharIterator, cur: Cursor, sources: seq<string>, sourceURL: Option<string>)
      returns (next: Cursor, nextURL: Option<string>, pushed: bool)
      requires Valid() && 0 <= it.position <= |it.text|
      requires sourceURL == ElementAt(sources, cur.sourceIndex)
      modifies it`position
      ensures old(it.position) < it.position
      ensures nextURL == ElementAt(sources, next.sourceIndex)
      ensures Segment(it.text, old(it.position), cur, true) ==
                (if pushed then [EntryOf(next)] else []) + Segments(it.text, it.position, next, true)
    {
      ghost var p0 := it.position;
      var columnDelta := DecodeVLQ(it);
      next := cur.(column := cur.column + columnDelta);
      if IsSeparator(it.Peek()) || !it.HasNext() {
        SegmentStops(it.text, p0, cur, columnDelta, it.position);
        return next, sourceURL, false;
      }
      SegmentContinues(it.text, p0, cur, columnDelta, it.position);
      next, nextURL := ReadSourceFields(it, p0, next, sources, sourceURL);
      pushed := true;
    }

    /**
     * The rest of a segment whose column field ended at the iterator's position:
     * the source index delta (re-fetching the source URL when it is not 0), the
     * source line and column deltas, and the name delta unless a separator follows.
     */
    method ReadSourceFields(it: StringCharIterator, ghost p0: int, cur: Cursor, sources: seq<string>, sourceURL: Option<string>)
      returns (next: Cursor, nextURL: Option<string>)
      requires Valid() && 0 <= p0 <= |it.text| && p0 < it.position
      requires sourceURL == ElementAt(sources, cur.sourceIndex)
      modifies it`position
      ensures old(it.position) < it.position
      ensures nextURL == ElementAt(sources, next.sourceIndex)
      ensures SourceFields(it.text, p0, old(it.position), cur, true) == [EntryOf(next)] + Segments(it.text, it.position, next, true)
    {
      ghost var p1 := it.position;
      var sourceIndex, sourceLine, sourceColumn, nameIndex := cur.sourceIndex, cur.sourceLine, cur.sourceColumn, cur.nameIndex;
      nextURL := sourceURL;
      var sourceIndexDelta := DecodeVLQ(it);
      ghost var p2 := it.position;
      if sourceIndexDelta != 0 {
        sourceIndex := sourceIndex + sourceIndexDelta;
        nextURL := ElementAt(sources, sourceIndex);
      }
      var sourceLineDelta := DecodeVLQ(it);
      ghost var p3 := it.position;
      sourceLine := sourceLine + sourceLineDelta;
      var sourceColumnDelta := DecodeVLQ(it);
      ghost var p4 := it.position;
      sourceColumn := sourceColumn + sourceColumnDelta;
      var nameDelta := 0;
      if !IsSeparator(it.Peek()) {
        nameDelta := DecodeVLQ(it);
      }
      nameIndex := nameIndex + nameDelta;
      next := cur.(sourceIndex := sourceIndex, sourceLine := sourceLine, sourceColumn := sourceColumn, nameIndex := nameIndex);
      FieldsPush(it.text, p0, p1, cur, sourceIndexDelta, p2, sourceLineDelta, p3, sourceColumnDelta, p4, nameDelta, it.position, next);
    }

    /**
     * Lines 323-325: push the mapping, then, through the source's reverse array,
     * store [line, column] under the source line unless one is there already;
     * `false` when the source has no reverse array (the TypeError).
     */
    method RecordMapping(sources: seq<string>, e: Entry, sourceURL: Option<string>) returns (ok: bool)
      requires sourceURL == ElementAt(sources, e.sourceIndex)
      modifies this`mappings, this`reverse
      ensures (Tables(mappings, reverse), ok) == RecordEntry(Tables(old(mappings), old(reverse)), sources, e)
    {
      mappings := mappings + [Mapping(e.line, e.column, sourceURL, e.sourceLine, e.sourceColumn)];
      var key := sourceURL.GetOr("undefined");
      if key !in reverse {
        return false;
      }
      if e.sourceLine !in reverse[key].entries {
        reverse := reverse[key := TableWrite(reverse[key], e.sourceLine, (e.line, e.column))];
      }
      ok := true;
    }

    /**
     * `findEntry`: a binary search narrowing [first, first + count). The mapping at
     * `first` is never after the query (unless first is 0) and the one just past the
     * window always is; `None` is the `undefined` of an empty table.
     */
    method FindEntry(lineNumber: int, columnNumber: int) returns (r: Option<Mapping>)
      ensures mappings == [] ==> r == None
      ensures mappings != [] ==>
                exists i :: 0 <= i < |mappings| && r == Some(mappings[i]) && Bracketed(mappings, i, lineNumber, columnNumber)
      ensures mappings != [] && Sorted(mappings) ==> r == Some(mappings[FloorIndex(mappings, lineNumber, columnNumber)])
    {
      var first := 0;
      var count := |mappings|;
      while count > 1
        invariant 0 <= first && 0 <= count && first + count <= |mappings|
        invariant mappings != [] ==> count >= 1
        invariant first == 0 || !After(mappings[first], lineNumber, columnNumber)
        invariant first + count == |mappings| || After(mappings[first + count], lineNumber, columnNumber)
        decreases count
      {
        var step := count / 2;
        var middle := first + step;
        var mapping := mappings[middle];
        if lineNumber < mapping.line || (lineNumber == mapping.line && columnNumber < mapping.column) {
          count := step;
        } else {
          first := middle;
          count := count - step;
        }
      }
      if mappings == [] {
        return None;
      }
      assert Bracketed(mappings, first, lineNumber, columnNumber);
      if Sorted(mappings) {
        FloorUnique(mappings, first, lineNumber, columnNumber);
      }
      r := Some(mappings[first]);
    }

    /**
     * `findEntryReversed`: the first [line, column] stored under a source line from
     * `lineNumber` up to the array's length, else the first mapping (`None` when the
     * table is empty); `NoReverseTable` is the TypeError of a URL with no array.
     */
    method FindEntryReversed(sourceURL: string, lineNumber: int) returns (r: ReverseResult)
      ensures sourceURL !in reverse <==> r == NoReverseTable
      ensures r.Hit? ==>
                sourceURL in reverse &&
                exists k :: lineNumber <= k < reverse[sourceURL].length && k in reverse[sourceURL].entries &&
                  reverse[sourceURL].entries[k] == (r.line, r.column) &&
                  forall j :: lineNumber <= j < k ==> j !in reverse[sourceURL].entries
      ensures r.FirstMapping? ==>
                sourceURL in reverse &&
                (forall j :: lineNumber <= j < reverse[sourceURL].length ==> j !in reverse[sourceURL].entries) &&
                r.first == (if mappings == [] then None else Some(mappings[0]))
    {
      if sourceURL !in reverse {
        return NoReverseTable;
      }
      var table := reverse[sourceURL];
      var k := lineNumber;
      while k < table.length
        invariant lineNumber <= k
        invariant forall j :: lineNumber <= j < k ==> j !in table.entries
        decreases table.length - k
      {
        if k in table.entries {
          return Hit(table.entries[k].0, table.entries[k].1);
        }
        k := k + 1;
      }
      r := FirstMapping(if mappings == [] then None else Some(mappings[0]));
    }
  }

  /** What `findEntryReversed` returns: a stored [line, column], the first mapping, or the TypeError. */
  datatype ReverseResult = Hit(line: int, column: int) | FirstMapping(first: Option<Mapping>) | NoReverseTable

  /** The mapping starts strictly after the query position. */
  predicate After(m: Mapping, line: int, column: int)
  {
    line < m.line || (line == m.line && column < m.column)
  }

  /** Mappings in non-decreasing (line, column) order. */
  predicate Sorted(ms: seq<Mapping>)
  {
    forall i, j :: 0 <= i < j < |ms| ==>
      ms[i].line < ms[j].line || (ms[i].line == ms[j].line && ms[i].column <= ms[j].column)
  }

  /** Index `i` is where `findEntry` may stop: not after the query (or 0), with the next one after it. */
  predicate Bracketed(ms: seq<Mapping>, i: int, line: int, column: int)
    requires 0 <= i < |ms|
  {
    (i == 0 || !After(ms[i], line, column)) && (i + 1 == |ms| || After(ms[i + 1], line, column))
  }

  /** The last index whose mapping is not after the query, or 0 when every mapping is after it. */
  function FloorIndex(ms: seq<Mapping>, line: int, column: int): (i: int)
    requires ms != []
    ensures 0 <= i < |ms|
    ensures i == 0 || !After(ms[i], line, column)
    ensures forall j :: i < j < |ms| ==> After(ms[j], line, column)
  {
    if |ms| == 1 then 0
    else if !After(ms[|ms| - 1], line, column) then |ms| - 1
    else FloorIndex(ms[..|ms| - 1], line, column)
  }

  /** In a sorted table the only place the search can stop is `FloorIndex`. */
  lemma FloorUnique(ms: seq<Mapping>, i: int, line: int, column: int)
    requires 0 <= i < |ms| && Sorted(ms) && Bracketed(ms, i, line, column)
    ensures i == FloorIndex(ms, line, column)
  {
  }

  /** Adding the next digit's shifted group to the sum of the digits so far gives the sum with that digit. */
  lemma VlqSumStep(ds: seq<int>, d: int, acc: int)
    requires acc == VlqSum(ds) + ShiftLeft(d % 32, 5 * |ds|)
    ensures acc == VlqSum(ds + [d])
  {
    assert (ds + [d])[..|ds|] == ds;

  }

  /** Continuation digits from `start` up to one without the bit: those are exactly the digits one call reads. */
  lemma {:induction false} DigitsRun(text: string, start: int, ds: seq<int>, d: int)
    requires forall j :: 0 <= j < |ds| ==> ds[j] == DigitAt(text, start + j) && ds[j] >= VLQ_CONTINUATION_MASK
    requires d == DigitAt(text, start + |ds|) && d < VLQ_CONTINUATION_MASK
    ensures VlqDigits(text, start) == ds + [d]
    decreases |ds|
  {
    if ds != [] {
      DigitsRun(text, start + 1, ds[1..], d);
      assert ds + [d] == [ds[0]] + (ds[1..] + [d]);
    }
  }


  lemma RegisteredSnoc(reverse: map<string, ReverseTable>, urls: seq<string>, u: string)
    ensures Registered(reverse, urls + [u]) ==
              (var prev := Registered(reverse, urls); if u in prev then prev else prev[u := ReverseTable(map[], 0)])
  {
    var prev := Registered(reverse, urls);
    var next := Registered(reverse, urls + [u]);
    assert (set v | v in urls + [u]) == (set v | v in urls) + {u};
    assert next.Keys == prev.Keys + {u};
  }

  lemma ContentsSnoc(content: map<string, string>, urls: seq<string>, u: string, sourcesContent: seq<Option<string>>)
    ensures Contents(content, urls + [u], sourcesContent) ==
              (var prev := Contents(content, urls, sourcesContent);
               var i := |urls|;
               if i < |sourcesContent| && TruthyString(sourcesContent[i]) then prev[u := sourcesContent[i].value] else prev)
  {
    assert (urls + [u])[..|urls|] == urls;
  }

  /** A segment that ends after its column delta pushes nothing. */
  lemma SegmentStops(text: string, pos: int, cur: Cursor, dc: int, p1: int)
    requires pos <= |text| && (dc, p1) == DecodeAt(text, pos) && SegmentEnds(text, p1, true)
    ensures Segment(text, pos, cur, true) == Segments(text, p1, cur.(column := cur.column + dc), true)
  {
    var c1 := cur.(column := cur.column + dc);
    var column := DecodeAt(text, pos);
    assert column.1 == p1 && cur.(column := cur.column + column.0) == c1;
  }

  /** A segment with source fields pushes one entry for the updated running values. */
  lemma SegmentPushes(text: string, pos: int, cur: Cursor, dc: int, p1: int, dsi: int, p2: int,
                      dsl: int, p3: int, dsc: int, p4: int, dn: int, p5: int)
    requires pos <= |text| && (dc, p1) == DecodeAt(text, pos) && !SegmentEnds(text, p1, true)
    requires (dsi, p2) == DecodeAt(text, p1) && (dsl, p3) == DecodeAt(text, p2) && (dsc, p4) == DecodeAt(text, p3)
    requires (dn, p5) == if IsSeparator(ElementAt(text, p4)) then (0, p4) else DecodeAt(text, p4)
    ensures var c2 := Cursor(cur.line, cur.column + dc, cur.sourceIndex + dsi, cur.sourceLine + dsl,
                             cur.sourceColumn + dsc, cur.nameIndex + dn);
            Segment(text, pos, cur, true) == [EntryOf(c2)] + Segments(text, p5, c2, true)
  {
    var c1 := cur.(column := cur.column + dc);
    var c2 := Cursor(cur.line, cur.column + dc, cur.sourceIndex + dsi, cur.sourceLine + dsl,
                     cur.sourceColumn + dsc, cur.nameIndex + dn);
    SegmentContinues(text, pos, cur, dc, p1);
    FieldsPush(text, pos, p1, c1, dsi, p2, dsl, p3, dsc, p4, dn, p5, c2);
  }

  /** A segment whose column is not followed by a separator goes on with its source fields. */
  lemma SegmentContinues(text: string, pos: int, cur: Cursor, dc: int, p1: int)
    requires pos <= |text| && (dc, p1) == DecodeAt(text, pos) && !SegmentEnds(text, p1, true)
    ensures Segment(text, pos, cur, true) == SourceFields(text, pos, p1, cur.(column := cur.column + dc), true)
  {
    var c1 := cur.(column := cur.column + dc);
    var column := DecodeAt(text, pos);
    assert column.1 == p1 && cur.(column := cur.column + column.0) == c1;
  }

  lemma FieldsPush(text: string, pos: int, p1: int, c1: Cursor, dsi: int, p2: int,
                   dsl: int, p3: int, dsc: int, p4: int, dn: int, p5: int, c2: Cursor)
    requires pos <= |text| && pos < p1
    requires (dsi, p2) == DecodeAt(text, p1) && (dsl, p3) == DecodeAt(text, p2) && (dsc, p4) == DecodeAt(text, p3)
    requires (dn, p5) == if IsSeparator(ElementAt(text, p4)) then (0, p4) else DecodeAt(text, p4)
    requires c2 == c1.(sourceIndex := c1.sourceIndex + dsi, sourceLine := c1.sourceLine + dsl,
                       sourceColumn := c1.sourceColumn + dsc, nameIndex := c1.nameIndex + dn)
    ensures SourceFields(text, pos, p1, c1, true) == [EntryOf(c2)] + Segments(text, p5, c2, true)
  {
  }

  /**
   * The finding of lines 309-326: as written, a text that ends right after a lone
   * column field ("A") reads the missing source fields past the end as digit 0
   * and pushes a mapping of zero deltas; the corrected reading pushes nothing.
   */
  lemma TrailingColumnFinding()
    ensures Segments("A", 0, Cursor(0, 0, 0, 0, 0, 0), false) == [Entry(0, 0, 0, 0, 0)]
    ensures Segments("A", 0, Cursor(0, 0, 0, 0, 0, 0), true) == []
  {
    TrailingAsWritten();
    TrailingCorrected();
  }

  /** As written: the lone column, then four fields read past the end as 0, and one entry. */
  lemma TrailingAsWritten()
    ensures Segments("A", 0, Cursor(0, 0, 0, 0, 0, 0), false) == [Entry(0, 0, 0, 0, 0)]
  {
    var c0 := Cursor(0, 0, 0, 0, 0, 0);
    LoneDigit("A", 0);
    LoneDigit("A", 1);
    LoneDigit("A", 2);
    LoneDigit("A", 3);
    LoneDigit("A", 4);
    assert SkipLines("A", 0, c0) == (0, c0);
    assert Segment("A", 0, c0, false) == SourceFields("A", 0, 1, c0, false);
    assert SkipLines("A", 5, c0) == (5, c0);
    assert Segments("A", 5, c0, false) == [];
  }

  /** Corrected: the end of the text ends the segment after its column, and nothing is pushed. */
  lemma TrailingCorrected()
    ensures Segments("A", 0, Cursor(0, 0, 0, 0, 0, 0), true) == []
  {
    var c0 := Cursor(0, 0, 0, 0, 0, 0);
    LoneDigit("A", 0);
    assert SkipLines("A", 0, c0) == (0, c0);
    assert Segment("A", 0, c0, true) == Segments("A", 1, c0, true);
    assert SkipLines("A", 1, c0) == (1, c0);
  }
}
