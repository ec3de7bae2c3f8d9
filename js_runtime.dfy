/**
 * The few pieces of the JavaScript runtime that the modelled files rely on:
 * `undefined`-or-value, 32-bit integer conversion of the bitwise operators,
 * the white space that `String.prototype.trim` removes, `startsWith`-style
 * prefix tests, `indexOf`/`lastIndexOf` on strings, and `Number.prototype.toString`
 * on integers. JavaScript strings are modelled as `seq<char>`.
 */
module JsRuntime {

  /** A JavaScript value that may be `undefined` (or `null`, where the two behave alike). */
  datatype Option<+T> = None | Some(value: T) {
    function GetOr(default: T): T {
      match this
      case Some(v) => v
      case None => default
    }
  }

  const TWO_31: int := 0x8000_0000
  const TWO_32: int := 0x1_0000_0000

  /** ECMAScript ToInt32: the operand conversion of `<<`, `>>`, `|` and `&`. */
  function ToInt32(x: int): (r: int)
    ensures -0x8000_0000 <= r < 0x8000_0000
    ensures (x - r) % 0x1_0000_0000 == 0
    ensures -0x8000_0000 <= x < 0x8000_0000 ==> r == x
  {
    var m := x % 0x1_0000_0000;
    if m >= 0x8000_0000 then m - 0x1_0000_0000 else m
  }

  function Pow2(n: nat): (r: nat)
    ensures r >= 1
  {
    if n == 0 then 1 else 2 * Pow2(n - 1)
  }

  lemma {:induction false} Pow2Add(a: nat, b: nat)
    ensures Pow2(a + b) == Pow2(a) * Pow2(b)
    decreases b
  {
    if b > 0 {
      Pow2Add(a, b - 1);
    }
  }

  lemma {:induction false} Pow2Monotone(a: nat, b: nat)
    requires a <= b
    ensures Pow2(a) <= Pow2(b)
    decreases b
  {
    if a < b {
      Pow2Monotone(a, b - 1);
    }
  }

  /**
   * JavaScript `x << s` for a non-negative shift count `s`: only `s` mod 32 counts,
   * and each doubling wraps to int32 (`ShiftLeftIsJsShift` relates it to the one-step
   * definition of the operator).
   */
  function ShiftLeft(x: int, s: nat): int
  {
    if s >= 32 then ShiftLeft(x, s - 32)
    else if s == 0 then ToInt32(x)
    else ToInt32(2 * ShiftLeft(x, s - 1))
  }

  /** Numbers that agree modulo 2^32 have the same int32 value. */
  lemma ToInt32Congruent(a: int, b: int, k: int)
    requires a - b == k * 0x1_0000_0000
    ensures ToInt32(a) == ToInt32(b)
  {
    var r := a % 0x1_0000_0000;
    assert a == (a / 0x1_0000_0000) * 0x1_0000_0000 + r;
    assert b == (a / 0x1_0000_0000 - k) * 0x1_0000_0000 + r;
    DivModUnique(b, 0x1_0000_0000, a / 0x1_0000_0000 - k, r);
  }

  /** Section 13.9.1 of ECMAScript: `x << s` is ToInt32 of ToInt32(x) times 2^(s mod 32). */
  lemma {:induction false} ShiftLeftIsJsShift(x: int, s: nat)
    ensures ShiftLeft(x, s) == ToInt32(ToInt32(x) * Pow2(s % 32))
    decreases s
  {
    if s >= 32 {
      ShiftLeftIsJsShift(x, s - 32);
      ModShift(s - 32, 32);
    } else {
      ShiftBelow32(x, s);
      DivModUnique(s, 32, 0, s);
    }
  }

  /** Below 32 the shift count is used as it is. */
  lemma {:induction false} ShiftBelow32(x: int, s: nat)
    requires s < 32
    ensures ShiftLeft(x, s) == ToInt32(ToInt32(x) * Pow2(s))
  {
    if s == 0 {
      assert ToInt32(x) * Pow2(0) == ToInt32(x);
    } else {
      ShiftBelow32(x, s - 1);
      var t, q := ToInt32(x), Pow2(s - 1);
      DoubleWrap(t * q);
      MulDouble(t, q);
    }
  }

  /** Doubling commutes with the wrap to int32. */
  lemma DoubleWrap(y: int)
    ensures ToInt32(2 * ToInt32(y)) == ToInt32(2 * y)
  {
    var r := ToInt32(y);
    var k := (y - r) / 0x1_0000_0000;
    DivModUnique(y - r, 0x1_0000_0000, k, 0);
    ToInt32Congruent(2 * y, 2 * r, 2 * k);
  }

  lemma MulDouble(t: int, q: int)
    ensures t * (2 * q) == 2 * (t * q)
  {
  }

  /** Bitwise or of two naturals, one binary digit at a time. */
  function OrNat(x: nat, y: nat): nat
    decreases x
  {
    if x == 0 then y
    else if y == 0 then x
    else 2 * OrNat(x / 2, y / 2) + (if x % 2 == 1 || y % 2 == 1 then 1 else 0)
  }

  /** JavaScript `a | b`: both operands as 32-bit patterns, or-ed, read back as int32. */
  function BitOr(a: int, b: int): int
  {
    ToInt32(OrNat(a % TWO_32, b % TWO_32))
  }

  /** Or-ing a value below 2^k into a multiple of 2^k adds it. */
  lemma {:induction false} OrIntoZeroBits(x: nat, k: nat, b: nat)
    requires b < Pow2(k)
    ensures OrNat(x * Pow2(k), b) == x * Pow2(k) + b
    decreases k
  {
    var big := x * Pow2(k);
    if k == 0 {
      assert b == 0;
    } else if big != 0 && b != 0 {
      var half := x * Pow2(k - 1);
      assert big == 2 * half;
      OrIntoZeroBits(x, k - 1, b / 2);
      assert big / 2 == half && big % 2 == 0;
    }
  }

  /** `c` is removed by `trim()`: the WhiteSpace and LineTerminator code points of ECMAScript. */
  predicate IsJsWhitespace(c: char)
  {
    c == '\t' || c == '\n' || c == '\U{000B}' || c == '\U{000C}' || c == '\r' || c == ' '
    || c == '\U{00A0}' || c == '\U{1680}' || ('\U{2000}' <= c <= '\U{200A}')
    || c == '\U{2028}' || c == '\U{2029}' || c == '\U{202F}' || c == '\U{205F}'
    || c == '\U{3000}' || c == '\U{FEFF}'
  }

  /** `c` ends a line for the regular-expression `.` (it does not match these). */
  predicate IsLineTerminator(c: char)
  {
    c == '\n' || c == '\r' || c == '\U{2028}' || c == '\U{2029}'
  }

  /** `s` with its leading white space removed. */
  function TrimStart(s: seq<char>): (r: seq<char>)
    ensures |r| <= |s| && r == s[|s| - |r|..]
    ensures r == [] || !IsJsWhitespace(r[0])
    ensures forall i :: 0 <= i < |s| - |r| ==> IsJsWhitespace(s[i])
  {
    if s != [] && IsJsWhitespace(s[0]) then TrimStart(s[1..]) else s
  }

  /** `s` with its trailing white space removed. */
  function TrimEnd(s: seq<char>): (r: seq<char>)
    ensures |r| <= |s| && r == s[..|r|]
    ensures r == [] || !IsJsWhitespace(r[|r| - 1])
    ensures forall i :: |r| <= i < |s| ==> IsJsWhitespace(s[i])
  {
    if s != [] && IsJsWhitespace(s[|s| - 1]) then TrimEnd(s[..|s| - 1]) else s
  }

  /** `String.prototype.trim`. */
  function Trim(s: seq<char>): seq<char>
  {
    TrimEnd(TrimStart(s))
  }

  /** `s.indexOf(prefix) === 0`. */
  predicate StartsWith(s: seq<char>, prefix: seq<char>)
  {
    |prefix| <= |s| && s[..|prefix|] == prefix
  }

  /** `sub` occurs in `s` at position `i`. */
  predicate OccursAt(s: seq<char>, sub: seq<char>, i: int)
  {
    0 <= i && i + |sub| <= |s| && s[i..i + |sub|] == sub
  }

  /** `s.indexOf(sub, from)`: the first occurrence at or after `from`, or -1. */
  function IndexOfFrom(s: seq<char>, sub: seq<char>, from: nat): (r: int)
    requires from <= |s| + 1
    ensures r == -1 || (from <= r && OccursAt(s, sub, r))
    ensures forall i :: from <= i && (r == -1 || i < r) ==> !OccursAt(s, sub, i)
    decreases |s| + 1 - from
  {
    if from + |sub| > |s| then -1
    else if s[from..from + |sub|] == sub then from
    else IndexOfFrom(s, sub, from + 1)
  }

  /** `s.indexOf(sub)`. */
  function IndexOf(s: seq<char>, sub: seq<char>): (r: int)
    ensures r == -1 || OccursAt(s, sub, r)
    ensures forall i :: 0 <= i && (r == -1 || i < r) ==> !OccursAt(s, sub, i)
  {
    IndexOfFrom(s, sub, 0)
  }

  /** The first position of the character `c` in `s`, or -1. */
  function IndexOfChar(s: seq<char>, c: char): (r: int)
    ensures -1 <= r < |s|
    ensures r >= 0 ==> s[r] == c
    ensures forall i :: 0 <= i < |s| && (r == -1 || i < r) ==> s[i] != c
  {
    if s == [] then -1
    else if s[0] == c then 0
    else
      var r := IndexOfChar(s[1..], c);
      if r == -1 then -1 else r + 1
  }

  /** `s.indexOf(c)` for a one-character string `c` is the first position of that character. */
  lemma IndexOfOneChar(s: seq<char>, c: char)
    ensures IndexOf(s, [c]) == IndexOfChar(s, c)
  {
    var r, k := IndexOf(s, [c]), IndexOfChar(s, c);
    if k >= 0 {
      assert s[k..k + 1] == [c];
      assert OccursAt(s, [c], k);
    }
    if r >= 0 {
      assert s[r..r + 1][0] == s[r];
    }
  }

  /** `s.lastIndexOf(c)` for a one-character `c`. */
  function LastIndexOfChar(s: seq<char>, c: char): (r: int)
    ensures -1 <= r < |s|
    ensures r >= 0 ==> s[r] == c
    ensures forall i :: r < i < |s| ==> s[i] != c
  {
    if s == [] then -1
    else if s[|s| - 1] == c then |s| - 1
    else LastIndexOfChar(s[..|s| - 1], c)
  }

  /** `String.prototype.substring(0, k)` for a possibly negative or too large `k`. */
  function SubstringTo(s: seq<char>, k: int): (r: seq<char>)
    ensures r == s[..if k < 0 then 0 else if k > |s| then |s| else k]
  {
    if k <= 0 then [] else if k >= |s| then s else s[..k]
  }

  /** The decimal digit character for `d`. */
  function DigitChar(d: nat): char
    requires d < 10
  {
    "0123456789"[d]
  }

  predicate IsDigitChar(c: char)
  {
    '0' <= c <= '9'
  }

  /** The value of a string of decimal digits (the inverse of `NatToString`). */
  function DecimalValue(s: seq<char>): nat
    requires forall i :: 0 <= i < |s| ==> IsDigitChar(s[i])
  {
    if s == [] then 0
    else
      assert IsDigitChar(s[|s| - 1]);
      10 * DecimalValue(s[..|s| - 1]) + (s[|s| - 1] as int - '0' as int)
  }

  /** `String(n)` for a non-negative integer `n`: its decimal digits, without leading zeros. */
  function NatToString(n: nat): (r: seq<char>)
    ensures |r| >= 1
    ensures forall i :: 0 <= i < |r| ==> IsDigitChar(r[i])
    ensures |r| > 1 ==> r[0] != '0'
    decreases n
  {
    if n < 10 then [DigitChar(n)] else NatToString(n / 10) + [DigitChar(n % 10)]
  }

  /** `String(n)` for an integer `n`. */
  function IntToString(n: int): (r: seq<char>)
    ensures |r| >= 1
    ensures n < 0 <==> r[0] == '-'
  {
    if n < 0 then "-" + NatToString(-n) else NatToString(n)
  }

  /** `NatToString` is undone by reading the digits back. */
  lemma {:induction false} NatToStringRoundTrip(n: nat)
    ensures DecimalValue(NatToString(n)) == n
    decreases n
  {
    if n >= 10 {
      NatToStringRoundTrip(n / 10);
      var s := NatToString(n);
      assert s[..|s| - 1] == NatToString(n / 10);
      DigitCharValue(n % 10);
    } else {
      DigitCharValue(n);
    }
  }

  lemma DigitCharValue(d: nat)
    requires d < 10
    ensures DigitChar(d) as int - '0' as int == d
  {
  }

  lemma MulMonotone(a: int, b: int, k: int)
    requires a <= b && k >= 0
    ensures a * k <= b * k
  {
    assert b * k - a * k == (b - a) * k;
  }

  /** Euclidean division is unique: a quotient and a remainder in [0, k) determine `%`. */
  lemma DivModUnique(x: int, k: int, q: int, r: int)
    requires k >= 1 && 0 <= r < k && x == q * k + r
    ensures x % k == r
  {
    var q' := x / k;
    var r' := x % k;
    assert x == q' * k + r';
    if q' > q {
      MulMonotone(q + 1, q', k);
    } else if q' < q {
      MulMonotone(q' + 1, q, k);
    }
  }

  /** Adding the modulus does not change the remainder. */
  lemma ModShift(a: nat, k: int)
    requires k >= 1
    ensures (a + k) % k == a % k
  {
    var q := a / k;
    var r := a % k;
    assert a == q * k + r && 0 <= r < k;
    assert (q + 1) * k == q * k + k;
    DivModUnique(a + k, k, q + 1, r);
  }
}
