/** The Rabin-Karp window hash of the matcher, modulo 2^64. */
module RollingHash {
  import opened Bytes

  const ANCHOR := 256
  const RK_R := 131

  function Pow(b: int, e: nat): int {
    if e == 0 then 1 else b * Pow(b, e - 1)
  }

  /** The window as a number in base 131, before any wrap-around. */
  function Poly(s: seq<byte>): int {
    if s == [] then 0 else Poly(s[..|s| - 1]) * RK_R + s[|s| - 1]
  }

  /** The hash of a byte string: its number modulo 2^64. */
  function Hash(s: seq<byte>): u64 {
    Wrap(Poly(s))
  }

  // ---- arithmetic modulo 2^64 ----

  lemma WrapAdd(a: int, b: int)
    ensures Wrap(Wrap(a) + b) == Wrap(a + b) && Wrap(a + Wrap(b)) == Wrap(a + b)
  {
  }

  lemma WrapShift(a: int, k: int)
    ensures Wrap(a + k * TWO64) == Wrap(a)
  {
  }

  lemma WrapMul(a: int, b: int)
    ensures Wrap(Wrap(a) * b) == Wrap(a * b)
  {
    var q := a / TWO64;
    assert a == Wrap(a) + q * TWO64;
    assert a * b == Wrap(a) * b + (q * b) * TWO64 by {
      MulOverAdd(Wrap(a), q * TWO64, b);
      MulSwap(q, TWO64, b);
    }
    WrapShift(Wrap(a) * b, q * b);
  }

  lemma MulOverAdd(a: int, b: int, c: int)
    ensures (a + b) * c == a * c + b * c
  {
  }

  lemma MulSwap(a: int, b: int, c: int)
    ensures (a * b) * c == (a * c) * b
  {
  }

  lemma WrapMulBoth(a: int, b: int)
    ensures Wrap(Wrap(a) * Wrap(b)) == Wrap(a * b)
  {
    hide Wrap;
    WrapMul(a, Wrap(b));
    WrapMul(b, a);
    MulComm(a, Wrap(b));
    MulComm(a, b);
  }

  lemma MulComm(a: int, b: int)
    ensures a * b == b * a
  {
  }

  // ---- PowR: square and multiply ----

  lemma {:induction false} PowAdd(b: int, m: nat, n: nat)
    ensures Pow(b, m + n) == Pow(b, m) * Pow(b, n)
  {
    if m > 0 {
      PowAdd(b, m - 1, n);
      MulAssoc(b, Pow(b, m - 1), Pow(b, n));
    }
  }

  lemma MulAssoc(a: int, b: int, c: int)
    ensures a * b * c == a * (b * c)
  {
  }

  /** Squaring the base halves the exponent. */
  lemma {:induction false} PowSquare(b: int, e: nat)
    ensures Pow(b * b, e) == Pow(b, 2 * e)
  {
    if e > 0 {
      PowSquare(b, e - 1);
      assert Pow(b, 2 * e) == b * Pow(b, 2 * e - 1);
      assert Pow(b, 2 * e - 1) == b * Pow(b, 2 * e - 2);
      MulAssoc(b, b, Pow(b, 2 * e - 2));
    }
  }

  /** 131 to the power `exp` modulo 2^64, by square and multiply. */
  method PowR(exp0: nat) returns (r: u64)
    ensures r == Wrap(Pow(RK_R, exp0))
  {
    hide Wrap, Pow;
    r := 1;
    var b: u64 := RK_R;
    var exp := exp0;
    ghost var x, y := 1, RK_R;
    PowStart(exp0);
    while exp > 0
      invariant r == Wrap(x) && b == Wrap(y)
      invariant x * Pow(y, exp) == Pow(RK_R, exp0)
    {
      PowHalve(x, y, exp);
      if exp % 2 == 1 {
        WrapMulBoth(x, y);
        r := Wrap(r * b);
        x := x * y;
      }
      WrapMulBoth(y, y);
      b := Wrap(b * b);
      y := y * y;
      exp := exp / 2;
    }
    PowZero(x, y);
  }

  lemma PowStart(e: nat)
    ensures Wrap(1) == 1 && Wrap(RK_R) == RK_R && 1 * Pow(RK_R, e) == Pow(RK_R, e)
  {
  }

  lemma PowZero(x: int, y: int)
    ensures x * Pow(y, 0) == x
  {
  }

  lemma PowHalve(x: int, y: int, e: nat)
    requires e > 0
    ensures e % 2 == 0 ==> x * Pow(y * y, e / 2) == x * Pow(y, e)
    ensures e % 2 == 1 ==> (x * y) * Pow(y * y, e / 2) == x * Pow(y, e)
  {
    PowSquare(y, e / 2);
    if e % 2 == 1 {
      assert Pow(y, e) == y * Pow(y, e - 1) && 2 * (e / 2) == e - 1;
      MulAssoc(x, y, Pow(y, e - 1));
    } else {
      assert 2 * (e / 2) == e;
    }
  }

  // ---- the window ----

  /** HashWin: Horner's rule over the window. */
  method HashWin(p: seq<byte>) returns (h: u64)
    ensures h == Hash(p)
  {
    h := 0;
    assert p[..0] == [];
    for i := 0 to |p|
      invariant h == Hash(p[..i])
    {
      HashSnoc(p, i);
      h := Wrap(h * RK_R + p[i]);
    }
    assert p[..|p|] == p;
  }

  lemma HashSnoc(p: seq<byte>, i: nat)
    requires i < |p|
    ensures Hash(p[..i + 1]) == Wrap(Hash(p[..i]) * RK_R + p[i])
  {
    assert p[..i + 1][..i] == p[..i];
    var a := Poly(p[..i]);
    WrapMul(a, RK_R);
    WrapAdd(a * RK_R, p[i]);
    WrapAdd(Wrap(a) * RK_R, p[i]);
  }

  /** Dropping the first byte takes away its share of the number. */
  lemma {:induction false} PolyDropFirst(s: seq<byte>)
    requires s != []
    ensures Poly(s[1..]) == Poly(s) - s[0] * Pow(RK_R, |s| - 1)
  {
    var k := |s| - 1;
    if k == 0 {
      assert s[..0] == [] && s[1..] == [];
      assert Poly(s) == Poly([]) * RK_R + s[0];
    } else {
      PolyDropFirst(s[..k]);
      assert s[1..][..k - 1] == s[..k][1..];
      assert Pow(RK_R, k) == RK_R * Pow(RK_R, k - 1);
      var p := Pow(RK_R, k - 1);
      assert (Poly(s[..k]) - s[0] * p) * RK_R == Poly(s[..k]) * RK_R - s[0] * (RK_R * p) by {
        MulSwap(s[0], p, RK_R);
      }
    }
  }

  /** One roll of the hash gives the hash of the window one byte on. */
  lemma RollIsHash(s: seq<byte>, c: byte)
    requires s != []
    ensures Wrap((Hash(s) - s[0] * Wrap(Pow(RK_R, |s| - 1))) * RK_R + c) == Hash(s[1..] + [c])
  {
    hide Pow, Wrap, Poly;
    PolyRoll(s, c);
    RollModulo(Poly(s), s[0], Pow(RK_R, |s| - 1), c);
  }

  lemma PolyRoll(s: seq<byte>, c: byte)
    requires s != []
    ensures Poly(s[1..] + [c]) == (Poly(s) - s[0] * Pow(RK_R, |s| - 1)) * RK_R + c
  {
    hide Pow;
    var next := s[1..] + [c];
    PolyDropFirst(s);
    assert next[..|next| - 1] == s[1..];
    assert Poly(next) == Poly(s[1..]) * RK_R + c;
  }

  lemma RollModulo(h: int, first: int, rhi: int, c: int)
    ensures Wrap((Wrap(h) - first * Wrap(rhi)) * RK_R + c) == Wrap((h - first * rhi) * RK_R + c)
  {
    var kh, kr := h / TWO64, rhi / TWO64;
    assert h == Wrap(h) + kh * TWO64 && rhi == Wrap(rhi) + kr * TWO64;
    var k := (kh - first * kr) * RK_R;
    assert first * rhi == first * Wrap(rhi) + (first * kr) * TWO64 by {
      Distribute(first, Wrap(rhi), kr);
    }
    assert (h - first * rhi) * RK_R + c == (Wrap(h) - first * Wrap(rhi)) * RK_R + c + k * TWO64;
    WrapShift((Wrap(h) - first * Wrap(rhi)) * RK_R + c, k);
  }

  lemma Distribute(a: int, b: int, k: int)
    ensures a * (b + k * TWO64) == a * b + (a * k) * TWO64
  {
  }
}
