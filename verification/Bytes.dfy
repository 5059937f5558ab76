/** Bytes, fixed-width integers as bytes, and two's complement. */
module Bytes {

  type byte = x: int | 0 <= x < 256
  type bytes = seq<byte>

  datatype Option<+T> = None | Some(value: T) {
    function GetOr(default: T): T {
      if Some? then value else default
    }
  }

  /** The number of values a `width`-byte integer can take. */
  function Range(width: nat): (r: int)
    ensures r > 0
  {
    if width == 0 then 1 else 256 * Range(width - 1)
  }

  /** The low `width` bytes of `n`, least significant first. */
  function Le(n: nat, width: nat): (b: bytes)
    ensures |b| == width
  {
    if width == 0 then [] else [n % 256] + Le(n / 256, width - 1)
  }

  function FromLe(b: bytes): (n: nat)
    ensures n < Range(|b|)
  {
    if b == [] then 0 else b[0] + 256 * FromLe(b[1..])
  }

  /** The low `width` bytes of `n`, most significant first (network order). */
  function Be(n: nat, width: nat): (b: bytes)
    ensures |b| == width
  {
    if width == 0 then [] else Be(n / 256, width - 1) + [n % 256]
  }

  function FromBe(b: bytes): (n: nat)
    ensures n < Range(|b|)
  {
    if b == [] then 0 else 256 * FromBe(b[..|b| - 1]) + b[|b| - 1]
  }

  lemma {:induction false} LeRoundTrip(n: nat, width: nat)
    requires n < Range(width)
    ensures FromLe(Le(n, width)) == n
  {
    if width > 0 {
      LeRoundTrip(n / 256, width - 1);
      assert Le(n, width)[1..] == Le(n / 256, width - 1);
    }
  }

  lemma {:induction false} BeRoundTrip(n: nat, width: nat)
    requires n < Range(width)
    ensures FromBe(Be(n, width)) == n
  {
    if width > 0 {
      BeRoundTrip(n / 256, width - 1);
      assert Be(n, width)[..width - 1] == Be(n / 256, width - 1);
    }
  }

  lemma SmallLe(n: byte)
    ensures Le(n, 4) == [n, 0, 0, 0]
  {
    assert Le(n, 4) == [n] + Le(0, 3) && Le(0, 3) == [0] + Le(0, 2) && Le(0, 2) == [0] + Le(0, 1);
    assert Le(0, 1) == [0] + Le(0, 0);
  }

  /** No other number has these bytes. */
  lemma {:induction false} LeExact(b: bytes)
    ensures Le(FromLe(b), |b|) == b
  {
    if b != [] {
      LeExact(b[1..]);
      assert FromLe(b) % 256 == b[0] && FromLe(b) / 256 == FromLe(b[1..]);
    }
  }

  lemma {:induction false} BeExact(b: bytes)
    ensures Be(FromBe(b), |b|) == b
  {
    if b != [] {
      BeExact(b[..|b| - 1]);
      assert FromBe(b) % 256 == b[|b| - 1] && FromBe(b) / 256 == FromBe(b[..|b| - 1]);
    }
  }

  /** Little-endian: the byte at place `i` counts 256 to the power `i`. */
  lemma {:induction false} LeAt(n: nat, width: nat, i: nat)
    requires i < width
    ensures Le(n, width)[i] == n / Range(i) % 256
  {
    if i > 0 {
      LeAt(n / 256, width - 1, i - 1);
      Divide(n, Range(i - 1));
    }
  }

  /** Big-endian: the same from the other end. */
  lemma {:induction false} BeAt(n: nat, width: nat, i: nat)
    requires i < width
    ensures Be(n, width)[width - 1 - i] == n / Range(i) % 256
  {
    if i > 0 {
      BeAt(n / 256, width - 1, i - 1);
      Divide(n, Range(i - 1));
    }
  }

  lemma Divide(n: nat, b: nat)
    requires b > 0
    ensures n / 256 / b == n / (256 * b)
  {
    var m, q, r := n / 256, n / 256 / b, n / 256 % b;
    DivideParts(m, b);
    Multiply(b, q);
    Quotient(n, 256 * b, q, 256 * r + n % 256);
  }

  lemma DivideParts(n: nat, d: nat)
    requires d > 0
    ensures n == d * (n / d) + n % d && 0 <= n % d < d
  {
  }

  lemma Multiply(b: nat, q: nat)
    ensures 256 * b * q == 256 * (b * q)
  {
  }

  lemma Quotient(n: nat, d: nat, q: nat, r: nat)
    requires r < d && n == d * q + r
    ensures n / d == q
  {
    DivideParts(n, d);
    Cancel(d, q, n / d);
    Cancel(d, n / d, q);
  }

  /** If `d` times `x` is less than `d` times `y + 1`, then `x` is at most `y`. */
  lemma Cancel(d: nat, x: nat, y: nat)
    ensures d * x < d * y + d ==> x <= y
  {
    assert x > y ==> d * x >= d * (y + 1);
  }

  lemma Ranges()
    ensures Range(1) == 0x100 && Range(2) == 0x1_0000 && Range(4) == 0x1_0000_0000
      && Range(8) == 0x1_0000_0000_0000_0000
  {
    assert Range(2) == 256 * Range(1);
    assert Range(4) == 256 * Range(3) && Range(3) == 256 * Range(2);
    assert Range(8) == 256 * Range(7) && Range(7) == 256 * Range(6) && Range(6) == 256 * Range(5)
      && Range(5) == 256 * Range(4);
  }

  /** Two's complement of a signed value on `width` bytes, and back. */
  function Unsigned(v: int, width: nat): (n: nat)
    requires -Range(width) <= 2 * v < Range(width)
    ensures n < Range(width)
  {
    if v < 0 then v + Range(width) else v
  }

  function Signed(n: nat, width: nat): (v: int)
    requires n < Range(width)
    ensures -Range(width) <= 2 * v < Range(width)
    ensures Unsigned(v, width) == n
  {
    if 2 * n < Range(width) then n else n - Range(width)
  }

  /** Two's complement is the value modulo the number of values. */
  lemma TwosComplement(v: int, width: nat)
    requires -Range(width) <= 2 * v < Range(width)
    ensures Unsigned(v, width) == v % Range(width)
  {
    hide Range;
    if v < 0 {
      assert v + Range(width) < Range(width);
    }
  }

  function Spaces(n: nat): (s: bytes)
    ensures |s| == n
    ensures forall i | 0 <= i < n :: s[i] == 32
  {
    if n == 0 then [] else Spaces(n - 1) + [32]
  }

  /** The C string at the start of `s`: everything before the first NUL. */
  function CString(s: bytes): bytes {
    if s == [] || s[0] == 0 then [] else [s[0]] + CString(s[1..])
  }

  /** A NUL-terminated text is printed whole exactly when it holds no NUL of its own. */
  lemma {:induction false} CStringWhole(text: bytes)
    ensures CString(text + [0]) == text <==> 0 !in text
    ensures |CString(text + [0])| <= |text| && (|CString(text + [0])| == |text| <==> 0 !in text)
  {
    if text == [] {
      assert text + [0] == [0];
    } else {
      CStringWhole(text[1..]);
      assert (text + [0])[1..] == text[1..] + [0];
      assert text == [text[0]] + text[1..];
    }
  }

  lemma {:induction false} CStringPrefix(s: bytes, n: nat)
    requires n < |s| && s[n] == 0
    ensures CString(s) == CString(s[..n] + [0])
  {
    if n > 0 && s[0] != 0 {
      CStringPrefix(s[1..], n - 1);
      assert (s[..n] + [0])[1..] == s[1..][..n - 1] + [0];
    }
  }

  lemma CStringAt(s: bytes, n: nat)
    requires n < |s| && s[n] == 0 && 0 !in s[..n]
    ensures CString(s) == s[..n]
  {
    CStringPrefix(s, n);
    CStringWhole(s[..n]);
  }

  lemma SameAfter(front: bytes, a: bytes, b: bytes)
    ensures front + a == front + b <==> a == b
  {
    if front + a == front + b {
      assert a == (front + a)[|front|..] && b == (front + b)[|front|..];
    }
  }

  lemma Assoc(a: bytes, b: bytes, c: bytes)
    ensures a + b + c == a + (b + c)
  {
  }

  lemma NextRemainder(n: nat)
    ensures (n % 256 + 1) % 256 == (n + 1) % 256
  {
  }
}
