/**
 * The socket.io connector's package format (`lib/connectors/sioconnector.js`).
 * A client package is a string: a 4-character big-endian message id, one
 * character holding the route length, the route, then the body text. Each
 * header character contributes its low 8 bits. `encode` answers a request
 * with `{id, body}` and pushes anything else as `{route, body}`.
 */
module SioConnector {
  import opened JsRuntime

  const PKG_ID_BYTES: nat := 4
  const PKG_ROUTE_LENGTH_BYTES: nat := 1
  const PKG_HEAD_BYTES: nat := PKG_ID_BYTES + PKG_ROUTE_LENGTH_BYTES

  /**
   * `str.charCodeAt(k) & 0xff`: the low byte of the character code, and 0 past
   * the end, where `charCodeAt` gives NaN and the mask turns it into 0.
   */
  function ByteAt(str: string, k: int): (b: int)
    ensures 0 <= b < 256
  {
    if 0 <= k < |str| then (str[k] as int) % 256 else 0
  }

  /** The `len` bytes a field read at `offset` sees. */
  function FieldBytes(str: string, offset: int, len: nat): (bs: seq<int>)
    ensures |bs| == len
    ensures forall i :: 0 <= i < len ==> bs[i] == ByteAt(str, offset + i)
  {
    seq(len, i => ByteAt(str, offset + i))
  }

  /** The unsigned big-endian value of bytes: the first byte is the most significant. */
  function BigEndian(bs: seq<int>): int
  {
    if bs == [] then 0 else 256 * BigEndian(bs[..|bs| - 1]) + bs[|bs| - 1]
  }

  predicate AreBytes(bs: seq<int>)
  {
    forall i :: 0 <= i < |bs| ==> 0 <= bs[i] < 256
  }

  /** The value `parseIntField` computes: the big-endian value of the bytes, wrapped to int32. */
  function IntField(str: string, offset: int, len: nat): int
  {
    ToInt32(BigEndian(FieldBytes(str, offset, len)))
  }

  /**
   * `parseIntField`: shift the result left by 8 before every byte but the first
   * and or the byte in, all in int32 arithmetic. A length of zero or less reads nothing.
   */
  method ParseIntField(str: string, offset: int, len: int) returns (res: int)
    ensures res == IntField(str, offset, if len < 0 then 0 else len)
  {
    res := 0;
    var i := 0;
    while i < len
      invariant 0 <= i <= (if len < 0 then 0 else len)
      invariant res == IntField(str, offset, i)
    {
      var shifted := res;
      if i > 0 {
        shifted := ShiftLeft(res, 8);
      }
      var b := ByteAt(str, offset + i);
      FieldStep(str, offset, i, shifted);
      res := BitOr(shifted, b);
      i := i + 1;
    }
  }

  /** One round of the loop: shift (except the first time), then or in the next byte. */
  lemma FieldStep(str: string, offset: int, i: nat, shifted: int)
    requires shifted == if i > 0 then ShiftLeft(IntField(str, offset, i), 8) else IntField(str, offset, i)
    ensures BitOr(shifted, ByteAt(str, offset + i)) == IntField(str, offset, i + 1)
  {
    var bs := FieldBytes(str, offset, i + 1);
    var v := BigEndian(FieldBytes(str, offset, i));
    var b := ByteAt(str, offset + i);
    assert bs[..i] == FieldBytes(str, offset, i);
    assert BigEndian(bs) == 256 * v + b;
    ShiftedField(v, shifted, i > 0);
    OrByteIntoShifted(v, b);
  }

  /** The low byte of a value shifted left by 8 is clear, so or-ing a byte in adds it. */
  lemma OrByteIntoShifted(v: int, b: int)
    requires 0 <= b < 256
    ensures BitOr(ToInt32(256 * v), b) == ToInt32(256 * v + b)
  {
    var m := v % 0x100_0000;
    ShiftedPattern(v);
    Pow2Value8();
    OrIntoZeroBits(m, 8, b);
    DivModUnique(b, TWO_32, 0, b);
    ToInt32Congruent(256 * m + b, 256 * v + b, -(v / 0x100_0000));
  }

  lemma Pow2Value8()
    ensures Pow2(8) == 256
  {
  }

  /** Shifting the int32 value of `v` left by 8 wraps `256 v`; before the first byte `v` is 0. */
  lemma ShiftedField(v: int, shifted: int, later: bool)
    requires later ==> shifted == ShiftLeft(ToInt32(v), 8)
    requires !later ==> shifted == ToInt32(v) && v == 0
    ensures shifted == ToInt32(256 * v)
  {
    if later {
      ShiftLeftIsJsShift(ToInt32(v), 8);
      Pow2Value8();
      var r := ToInt32(v);
      assert ToInt32(r) == r;
      var k := (v - r) / TWO_32;
      DivModUnique(v - r, TWO_32, k, 0);
      ToInt32Congruent(r * 256, 256 * v, -256 * k);
    }
  }

  /** The 32-bit pattern of `256 v` is 256 times the low 24 bits of `v`. */
  lemma ShiftedPattern(v: int)
    ensures ToInt32(256 * v) % TWO_32 == 256 * (v % 0x100_0000)
  {
    var m := v % 0x100_0000;
    var q := v / 0x100_0000;
    assert 256 * v == q * TWO_32 + 256 * m;
    DivModUnique(256 * v, TWO_32, q, 256 * m);
    var r := ToInt32(256 * v);
    var k := (256 * v - r) / TWO_32;
    DivModUnique(256 * v - r, TWO_32, k, 0);
    assert r == (q - k) * TWO_32 + 256 * m;
    DivModUnique(r, TWO_32, q - k, 256 * m);
  }

  /** Bytes read big-endian stay below 256^n. */
  lemma {:induction false} BigEndianBound(bs: seq<int>)
    requires AreBytes(bs)
    ensures 0 <= BigEndian(bs) < Pow2(8 * |bs|)
    decreases |bs|
  {
    if bs != [] {
      var n := |bs|;
      BigEndianBound(bs[..n - 1]);
      Pow2Add(8 * (n - 1), 8);
      Pow2Value8();
      MulMonotone(BigEndian(bs[..n - 1]) + 1, Pow2(8 * (n - 1)), 256);
    }
  }


  /** The first byte weighs 256^(n-1): the big-endian value read from the front. */
  lemma {:induction false} BigEndianFront(bs: seq<int>)
    requires bs != []
    ensures BigEndian(bs) == bs[0] * Pow2(8 * (|bs| - 1)) + BigEndian(bs[1..])
    decreases |bs|
  {
    var n := |bs|;
    if n == 1 {
      assert bs[..0] == [] && bs[1..] == [];
    } else {
      var init := bs[..n - 1];
      BigEndianFront(init);
      assert init[1..] == bs[1..][..n - 2];
      assert init[0] == bs[0];
      Pow2Add(8 * (n - 2), 8);
      Pow2Value8();
      assert bs[1..][n - 2] == bs[n - 1];
      assert Pow2(8 * (n - 1)) == Pow2(8 * (n - 2)) * 256;
    }
  }

  /**
   * Fields of up to three bytes do not reach the sign bit: the result is the
   * plain big-endian value, below 256^len.
   */
  lemma ShortFieldValue(str: string, offset: int, len: nat)
    requires len <= 3
    ensures IntField(str, offset, len) == BigEndian(FieldBytes(str, offset, len))
    ensures 0 <= IntField(str, offset, len) < Pow2(8 * len)
  {
    var bs := FieldBytes(str, offset, len);
    BigEndianBound(bs);
    Pow2Monotone(8 * len, 24);
    assert Pow2(24) == 0x100_0000 by { Pow2Value24(); }
  }

  lemma Pow2Value24()
    ensures Pow2(24) == 0x100_0000
  {
    Pow2Add(8, 16);
    Pow2Add(8, 8);
    Pow2Value8();
  }


  /**
   * A 4-byte field is the int32 reading of the bytes: negative exactly when the
   * first byte has its top bit set.
   */
  lemma FourByteSign(str: string, offset: int)
    ensures IntField(str, offset, 4) < 0 <==> ByteAt(str, offset) >= 0x80
  {
    var bs := FieldBytes(str, offset, 4);
    BigEndianFront(bs);
    BigEndianBound(bs[1..]);
    Pow2Value24();
    BigEndianBound(bs);
    Pow2Add(24, 8);
    Pow2Value8();
    var v := BigEndian(bs);
    assert v == bs[0] * 0x100_0000 + BigEndian(bs[1..]);
    assert 0 <= v < TWO_32;
    DivModUnique(v, TWO_32, 0, v);
  }

  /** A decoded client message; the body is kept as text (`JSON.parse` is not modelled). */
  datatype Message = Message(id: int, route: string, body: string)

  /** `String.prototype.substr(start, length)` for `start >= 0`. */
  function Substr(s: string, start: nat, length: int): (r: string)
    ensures |r| <= (if length < 0 then 0 else length)
    ensures start <= |s| ==> r == s[start..if start + length > |s| then |s| else if length < 0 then start else start + length]
    ensures start > |s| ==> r == []
  {
    var from := if start > |s| then |s| else start;
    var to := if length <= 0 then from else if from + length > |s| then |s| else from + length;
    s[from..to]
  }

  /** `String.prototype.substr(start)`: the rest of the string from `start`. */
  function SubstrFrom(s: string, start: nat): (r: string)
  {
    if start > |s| then [] else s[start..]
  }

  /**
   * `decode`: the id from characters 0-3, the route length from character 4, the
   * route from offset 5, and the body is everything after the route.
   */
  function Decode(msg: string): (m: Message)
    ensures 0 <= |m.route| <= 255
    ensures m.route + m.body == SubstrFrom(msg, PKG_HEAD_BYTES)
  {
    var id := IntField(msg, 0, PKG_ID_BYTES);
    var routeLen := IntField(msg, PKG_ID_BYTES, PKG_ROUTE_LENGTH_BYTES);
    ShortFieldValue(msg, PKG_ID_BYTES, PKG_ROUTE_LENGTH_BYTES);
    Pow2Value8();
    var route := Substr(msg, PKG_HEAD_BYTES, routeLen);
    var body := SubstrFrom(msg, PKG_HEAD_BYTES + routeLen);
    assert route + body == SubstrFrom(msg, PKG_HEAD_BYTES);
    Message(id, route, body)
  }

  /** The character for a byte value. */
  function ByteChar(b: int): char
    requires 0 <= b < 256
  {
    b as char
  }

  /** The four big-endian header characters of an int32 id (its two's complement bytes). */
  function IdChars(id: int): (cs: string)
    ensures |cs| == 4
  {
    var u := id % TWO_32;
    [ByteChar(u / 0x100_0000), ByteChar((u / 0x1_0000) % 256), ByteChar((u / 0x100) % 256), ByteChar(u % 256)]
  }

  /** A client package, as the format comment describes it. */
  function Package(id: int, route: string, body: string): string
    requires |route| < 256
  {
    IdChars(id) + [ByteChar(|route|)] + route + body
  }

  /**
   * Round trip: decoding a package gives back its int32 id, its route and its
   * body text, whatever characters the route and body hold.
   */
  lemma DecodePackage(id: int, route: string, body: string)
    requires -TWO_31 <= id < TWO_31 && |route| < 256
    ensures Decode(Package(id, route, body)) == Message(id, route, body)
  {
    var msg := Package(id, route, body);
    PackageId(id, route, body);
    PackageRouteLength(id, route, body);
    assert msg[5..] == route + body;
    assert msg[5..5 + |route|] == route;
  }

  /** The header of a package reads back as its id. */
  lemma PackageId(id: int, route: string, body: string)
    requires -TWO_31 <= id < TWO_31 && |route| < 256
    ensures IntField(Package(id, route, body), 0, 4) == id
  {
    IdHeader(id, route, body);
    IdWord(id);
  }

  /** The first four bytes of a package are the bytes of its id's 32-bit word. */
  lemma IdHeader(id: int, route: string, body: string)
    requires |route| < 256
    ensures var u := id % TWO_32;
            FieldBytes(Package(id, route, body), 0, 4) == [u / 0x100_0000, (u / 0x1_0000) % 256, (u / 0x100) % 256, u % 256]
  {
    var msg := Package(id, route, body);
    assert msg[..4] == IdChars(id);
  }

  /** The big-endian value of an int32's word bytes, wrapped to int32, is the int32. */
  lemma IdWord(id: int)
    requires -TWO_31 <= id < TWO_31
    ensures var u := id % TWO_32;
            ToInt32(BigEndian([u / 0x100_0000, (u / 0x1_0000) % 256, (u / 0x100) % 256, u % 256])) == id
  {
    var u := id % TWO_32;
    var b0, b1, b2, b3 := u / 0x100_0000, (u / 0x1_0000) % 256, (u / 0x100) % 256, u % 256;
    BigEndianFour(b0, b1, b2, b3);
    WordBytes(u);
    var k := (id - u) / TWO_32;
    DivModUnique(id - u, TWO_32, k, 0);
    ToInt32Congruent(u, id, -k);
  }

  lemma BigEndianFour(b0: int, b1: int, b2: int, b3: int)
    ensures BigEndian([b0, b1, b2, b3]) == 256 * (256 * (256 * b0 + b1) + b2) + b3
  {
    assert [b0][..0] == [];
    assert BigEndian([b0]) == b0;
    assert [b0, b1][..1] == [b0];
    assert BigEndian([b0, b1]) == 256 * b0 + b1;
    assert [b0, b1, b2][..2] == [b0, b1];
    assert BigEndian([b0, b1, b2]) == 256 * (256 * b0 + b1) + b2;
    assert [b0, b1, b2, b3][..3] == [b0, b1, b2];
  }

  /** A 32-bit word is the big-endian value of its four bytes. */
  lemma WordBytes(u: int)
    requires 0 <= u < TWO_32
    ensures 256 * (256 * (256 * (u / 0x100_0000) + (u / 0x1_0000) % 256) + (u / 0x100) % 256) + u % 256 == u
    ensures u / 0x100_0000 < 256
  {
    var q1 := u / 0x100;
    var q2 := q1 / 0x100;
    var q3 := q2 / 0x100;
    assert u == 256 * q1 + u % 256;
    assert q1 == 256 * q2 + q1 % 256;
    assert q2 == 256 * q3 + q2 % 256;
    DivModUnique(u, 0x1_0000, q2, 256 * (q1 % 256) + u % 256);
    assert u / 0x1_0000 == q2 by {
      DivQuotient(u, 0x1_0000, q2, 256 * (q1 % 256) + u % 256);
    }
    assert u / 0x100_0000 == q3 by {
      DivQuotient(u, 0x100_0000, q3, 0x1_0000 * (q2 % 256) + 256 * (q1 % 256) + u % 256);
    }
  }

  /** Euclidean division is unique: the quotient too. */
  lemma DivQuotient(x: int, k: int, q: int, r: int)
    requires k >= 1 && 0 <= r < k && x == q * k + r
    ensures x / k == q
  {
    DivModUnique(x, k, q, r);
  }

  /** The route-length character of a package reads back as the route's length. */
  lemma PackageRouteLength(id: int, route: string, body: string)
    requires |route| < 256
    ensures IntField(Package(id, route, body), 4, 1) == |route|
  {
    var msg := Package(id, route, body);
    assert msg[4] == ByteChar(|route|);
    assert ByteAt(msg, 4) == |route|;
    assert FieldBytes(msg, 4, 1) == [|route|];
    assert [|route|][..0] == [];
    assert BigEndian([|route|]) == |route|;
  }

  /**
   * A package cut short inside its route: the route is whatever follows the
   * header and the body text is empty.
   */
  lemma DecodeShort(msg: string)
    requires |msg| < PKG_HEAD_BYTES + IntField(msg, PKG_ID_BYTES, PKG_ROUTE_LENGTH_BYTES)
    ensures Decode(msg).route == SubstrFrom(msg, PKG_HEAD_BYTES)
    ensures Decode(msg).body == []
  {
    ShortFieldValue(msg, PKG_ID_BYTES, PKG_ROUTE_LENGTH_BYTES);
  }

  /** `reqId` as `encode` receives it: a number, or `undefined`. */
  predicate Truthy(reqId: Option<int>)
  {
    reqId.Some? && reqId.value != 0
  }

  /**
   * What `encode` hands to socket.io: a response object `{id, body}`, or a push,
   * which is the JSON text of `{route, body}` (the text rendering itself is not modelled).
   */
  datatype Outgoing<B> = Response(id: int, body: B) | Push(route: string, body: B)

  /** `composeResponse`: the route is dropped. */
  function ComposeResponse<B>(msgId: int, route: string, msgBody: B): Outgoing<B>
  {
    Response(msgId, msgBody)
  }

  /** `composePush`. */
  function ComposePush<B>(route: string, msgBody: B): Outgoing<B>
  {
    Push(route, msgBody)
  }

  /**
   * `encode`: a truthy request id makes a response carrying that id and the body
   * but not the route; a missing id or id 0 makes a push of route and body.
   */
  function Encode<B>(reqId: Option<int>, route: string, msg: B): (r: Outgoing<B>)
    ensures r.Response? <==> Truthy(reqId)
    ensures r.body == msg
    ensures r.Response? ==> r.id == reqId.value
    ensures r.Push? ==> r.route == route
  {
    if Truthy(reqId) then ComposeResponse(reqId.value, route, msg) else ComposePush(route, msg)
  }
}
