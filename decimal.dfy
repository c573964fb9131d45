/** Decimal rendering of integers, as `Int32.ToString()` and
    `String.valueOf(long)` produce it, its inverse, and two's-complement
    wrap-around of a signed counter. */
module Decimal {

  const Two32: int := 0x1_0000_0000
  const Two64: int := 0x1_0000_0000_0000_0000

  predicate IsDigit(c: char)
  {
    '0' <= c <= '9'
  }

  function DigitChar(d: nat): (c: char)
    requires d < 10
    ensures IsDigit(c)
  {
    (('0' as int) + d) as char
  }

  function DigitValue(c: char): (d: nat)
    requires IsDigit(c)
    ensures d < 10
  {
    (c as int) - ('0' as int)
  }

  /** The digits of `n`, most significant first, no leading zeros. */
  function NatToString(n: nat): (r: string)
    ensures r != [] && forall i :: 0 <= i < |r| ==> IsDigit(r[i])
    decreases n
  {
    if n < 10 then [DigitChar(n)] else NatToString(n / 10) + [DigitChar(n % 10)]
  }

  /** `-` followed by the digits for a negative value. */
  function IntToString(i: int): (r: string)
    ensures r != []
  {
    if i < 0 then "-" + NatToString(-i) else NatToString(i)
  }

  predicate AllDigits(s: string)
  {
    forall i :: 0 <= i < |s| ==> IsDigit(s[i])
  }

  /** The value of a non-empty digit string. */
  function ParseNat(s: string): nat
    requires s != [] && AllDigits(s)
    decreases |s|
  {
    if |s| == 1 then DigitValue(s[0])
    else ParseNat(s[..|s| - 1]) * 10 + DigitValue(s[|s| - 1])
  }

  predicate IsIntString(s: string)
  {
    if s != [] && s[0] == '-' then |s| > 1 && AllDigits(s[1..]) else s != [] && AllDigits(s)
  }

  function ParseInt(s: string): int
    requires IsIntString(s)
  {
    if s[0] == '-' then -(ParseNat(s[1..]) as int) else ParseNat(s)
  }

  lemma {:induction false} ParseNatToString(n: nat)
    ensures ParseNat(NatToString(n)) == n
    decreases n
  {
    if n >= 10 {
      var s := NatToString(n);
      assert s[..|s| - 1] == NatToString(n / 10);
      ParseNatToString(n / 10);
    }
  }

  /** Reading back the rendering of any integer gives that integer. */
  lemma ParseIntToString(i: int)
    ensures IsIntString(IntToString(i))
    ensures ParseInt(IntToString(i)) == i
  {
    var s := IntToString(i);
    if i < 0 {
      assert s[1..] == NatToString(-i);
      ParseNatToString(-i);
    } else {
      assert IsDigit(s[0]);
      ParseNatToString(i);
    }
  }

  /** Different integers render differently. */
  lemma IntToStringInjective(a: int, b: int)
    requires a != b
    ensures IntToString(a) != IntToString(b)
  {
    ParseIntToString(a);
    ParseIntToString(b);
  }

  const Two31: int := 0x8000_0000
  const Two63: int := 0x8000_0000_0000_0000

  /** A 32-bit signed counter (C# `int`) reached by counting from the
      mathematical integer `x`: two's-complement wrap-around. */
  function Wrap32(x: int): (r: int)
    ensures -Two31 <= r < Two31
    ensures -Two31 <= x < Two31 ==> r == x
  {
    (x + Two31) % Two32 - Two31
  }

  /** The same for a 64-bit signed counter (Java `long`). */
  function Wrap64(x: int): (r: int)
    ensures -Two63 <= r < Two63
    ensures -Two63 <= x < Two63 ==> r == x
  {
    (x + Two63) % Two64 - Two63
  }

  lemma {:induction false} ModDifference(a: int, b: int, m: nat)
    requires m > 0 && 0 < b - a < m
    ensures a % m != b % m
  {
    var qa, ra := a / m, a % m;
    var qb, rb := b / m, b % m;
    assert a == qa * m + ra && 0 <= ra < m;
    assert b == qb * m + rb && 0 <= rb < m;
    if ra == rb {
      var k := qb - qa;
      assert b - a == k * m by {
        assert b - a == qb * m - qa * m;
      }
      if k >= 1 {
        MulAtLeast(k, m);
      } else {
        MulAtLeast(1 - k, m);
      }
    }
  }

  lemma {:induction false} MulAtLeast(k: int, m: nat)
    requires k >= 1
    ensures k * m >= m
    decreases k
  {
    if k > 1 {
      MulAtLeast(k - 1, m);
      assert k * m == (k - 1) * m + m;
    }
  }

  /** Fewer than 2^32 steps apart, two 32-bit counter values differ. */
  lemma Wrap32InjectiveWindow(a: int, b: int)
    requires 0 < b - a < Two32
    ensures Wrap32(a) != Wrap32(b)
  {
    ModDifference(a + Two31, b + Two31, Two32);
  }

  /** Fewer than 2^64 steps apart, two 64-bit counter values differ. */
  lemma Wrap64InjectiveWindow(a: int, b: int)
    requires 0 < b - a < Two64
    ensures Wrap64(a) != Wrap64(b)
  {
    ModDifference(a + Two63, b + Two63, Two64);
  }

  lemma {:induction false} ModStep(x: int, m: nat)
    requires m > 0
    ensures (x % m + 1) % m == (x + 1) % m
  {
    var q, r := x / m, x % m;
    assert x == q * m + r && 0 <= r < m;
    if r + 1 < m {
      assert x + 1 == q * m + (r + 1);
      ModOfMultiplePlus(q, m, r + 1);
      ModOfMultiplePlus(0, m, r + 1);
    } else {
      assert x + 1 == (q + 1) * m + 0;
      ModOfMultiplePlus(q + 1, m, 0);
      ModOfMultiplePlus(1, m, 0);
    }
  }

  lemma ModOfMultiplePlus(q: int, m: nat, r: int)
    requires m > 0 && 0 <= r < m
    ensures (q * m + r) % m == r
  {
    var x := q * m + r;
    var q', r' := x / m, x % m;
    assert x == q' * m + r' && 0 <= r' < m;
    if r' != r {
      assert (q' - q) * m == r - r' by {
        assert q' * m - q * m == r - r';
      }
      if q' - q >= 1 {
        MulAtLeast(q' - q, m);
      } else {
        MulAtLeast(q - q', m);
      }
    }
  }

  /** One 32-bit counter step from a wrapped value is the wrapped next value. */
  lemma Wrap32Step(x: int)
    ensures Wrap32(Wrap32(x) + 1) == Wrap32(x + 1)
  {
    ModStep(x + Two31, Two32);
  }

  /** One 64-bit counter step from a wrapped value is the wrapped next value. */
  lemma Wrap64Step(x: int)
    ensures Wrap64(Wrap64(x) + 1) == Wrap64(x + 1)
  {
    ModStep(x + Two63, Two64);
  }
}
