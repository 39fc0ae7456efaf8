/** Bytes, fixed-width unsigned arithmetic, and the little-endian fields of the delta and ZIP formats. */
module Bytes {

  const TWO32 := 0x1_0000_0000
  const TWO64 := 0x1_0000_0000_0000_0000

  /** The error of a host read or write that failed. */
  const EIO := -5

  type byte = x: int | 0 <= x < 256
  type u32 = x: int | 0 <= x < 0x1_0000_0000
  type u64 = x: int | 0 <= x < 0x1_0000_0000_0000_0000

  datatype Result<+T, +E> = Ok(value: T) | Err(error: E)
  datatype Option<+T> = None | Some(value: T)

  /** What C++ leaves of a mathematical integer in an unsigned 64-bit variable. */
  function Wrap(x: int): u64 {
    x % 0x1_0000_0000_0000_0000
  }

  lemma WrapId(x: int)
    requires 0 <= x < TWO64
    ensures Wrap(x) == x
  {
  }

  function Min(a: int, b: int): int {
    if a <= b then a else b
  }

  /** The bytes a read of `n` bytes at `off` can see: clipped at the end, empty past it. */
  function Slice<T>(s: seq<T>, off: nat, n: nat): (r: seq<T>)
    ensures |r| <= n
  {
    if off >= |s| then [] else s[off..Min(off + n, |s|)]
  }

  /** `s[from..to]`, under a name that proofs can hide. */
  function Cut<T>(s: seq<T>, from: nat, to: nat): (r: seq<T>)
    requires from <= to <= |s|
    ensures |r| == to - from
  {
    s[from..to]
  }

  lemma CutOfCut<T>(s: seq<T>, a: nat, b: nat, c: nat, d: nat)
    requires a <= b <= |s| && c <= d <= b - a
    ensures Cut(Cut(s, a, b), c, d) == Cut(s, a + c, a + d)
  {
    var l, r := Cut(Cut(s, a, b), c, d), Cut(s, a + c, a + d);
    forall k | 0 <= k < |l|
      ensures l[k] == r[k]
    {
      assert l[k] == Cut(s, a, b)[c + k] == s[a + c + k];
    }
  }

  lemma CutPlus<T>(s: seq<T>, a: nat, d: nat, n: nat)
    requires a + d + n <= |s|
    ensures Cut(s, a + d, a + (d + n)) == Cut(s, a + d, a + d + n)
  {
  }

  lemma CutJoin<T>(s: seq<T>, a: nat, b: nat, c: nat)
    requires a <= b <= c <= |s|
    ensures Cut(s, a, b) + Cut(s, b, c) == Cut(s, a, c)
  {
  }

  lemma CutNone<T>(s: seq<T>, a: nat)
    requires a <= |s|
    ensures Cut(s, a, a) == []
  {
  }

  lemma CutAll<T>(s: seq<T>)
    ensures Cut(s, 0, |s|) == s
  {
  }

  lemma CutLeft<T>(x: seq<T>, y: seq<T>, a: nat, b: nat)
    requires a <= b <= |x|
    ensures Cut(x + y, a, b) == Cut(x, a, b)
  {
  }

  lemma CutRight<T>(x: seq<T>, y: seq<T>)
    ensures Cut(x + y, |x|, |x| + |y|) == y
  {
  }

  lemma Assoc<T>(x: seq<T>, y: seq<T>, z: seq<T>)
    ensures x + y + z == x + (y + z)
  {
  }

  function Pow256(n: nat): (r: nat)
    ensures r > 0
  {
    if n == 0 then 1 else 256 * Pow256(n - 1)
  }

  lemma Pow256Values()
    ensures Pow256(2) == 0x1_0000
    ensures Pow256(4) == 0x1_0000_0000
    ensures Pow256(8) == 0x1_0000_0000_0000_0000
  {
    assert Pow256(1) == 256;
    assert Pow256(2) == 0x1_0000;
    assert Pow256(3) == 0x100_0000;
    assert Pow256(4) == 0x1_0000_0000;
    assert Pow256(5) == 0x100_0000_0000;
    assert Pow256(6) == 0x1_0000_0000_0000;
    assert Pow256(7) == 0x100_0000_0000_0000;
  }

  /** The low `n` bytes of `x`, least significant first. */
  function Le(x: nat, n: nat): (s: seq<byte>)
    ensures |s| == n
  {
    if n == 0 then [] else [x % 256] + Le(x / 256, n - 1)
  }

  /** The number whose little-endian bytes are `s`. */
  function Un(s: seq<byte>): nat {
    if s == [] then 0 else s[0] + 256 * Un(s[1..])
  }

  lemma {:induction false} UnBound(s: seq<byte>)
    ensures Un(s) < Pow256(|s|)
  {
    if s != [] {
      UnBound(s[1..]);
    }
  }

  /** Reading back what was written gives the number modulo the field's width. */
  lemma {:induction false} UnLe(x: nat, n: nat)
    ensures Un(Le(x, n)) == x % Pow256(n)
  {
    if n > 0 {
      var p := Pow256(n - 1);
      UnLe(x / 256, n - 1);
      assert Le(x, n)[1..] == Le(x / 256, n - 1);
      var q := (x / 256) / p;
      assert x / 256 == q * p + (x / 256) % p;
      assert x == (256 * p) * q + (x % 256 + 256 * ((x / 256) % p)) by {
        assert x == 256 * (x / 256) + x % 256;
        assert 256 * (q * p) == (256 * p) * q;
      }
      ModUnique(x, 256 * p, q, x % 256 + 256 * ((x / 256) % p));
    }
  }

  lemma ModUnique(x: int, m: int, q: int, r: int)
    requires m > 0 && 0 <= r < m && x == m * q + r
    ensures x % m == r && x / m == q
  {
    var q', r' := x / m, x % m;
    assert x == m * q' + r' && 0 <= r' < m;
    QuotientUnique(m, q, r, q', r');
  }

  lemma QuotientUnique(m: int, q: int, r: int, q': int, r': int)
    requires 0 <= r < m && 0 <= r' < m && m * q + r == m * q' + r'
    ensures q == q' && r == r'
  {
    if q < q' {
      MulOrder(m, q + 1, q');
    } else if q' < q {
      MulOrder(m, q' + 1, q);
    }
  }

  lemma MulOrder(m: int, a: int, b: int)
    requires m >= 0 && a <= b
    ensures m * a <= m * b
  {
    assert m * (b - a) >= 0;
  }

  /** And writing back what was read gives the same bytes. */
  lemma {:induction false} LeUn(s: seq<byte>)
    ensures Le(Un(s), |s|) == s
  {
    if s != [] {
      LeUn(s[1..]);
      assert Un(s) % 256 == s[0] && Un(s) / 256 == Un(s[1..]);
    }
  }

  /** put32 / put64: append the low `n` bytes of `x`, one shift at a time. */
  method PutLe(v: seq<byte>, x: nat, n: nat) returns (r: seq<byte>)
    ensures r == v + Le(x, n)
  {
    r := v;
    var y := x;
    for i := 0 to n
      invariant r + Le(y, n - i) == v + Le(x, n)
    {
      assert Le(y, n - i) == [y % 256] + Le(y / 256, n - i - 1);
      r := r + [y % 256];
      y := y / 256;
    }
  }

  /** rd32 / rd64: accumulate each byte at its shifted place. */
  method RdLe(p: seq<byte>) returns (x: nat)
    ensures x == Un(p)
  {
    x := 0;
    var unit := 1;
    for i := 0 to |p|
      invariant unit == Pow256(i)
      invariant x + unit * Un(p[i..]) == Un(p)
    {
      assert Un(p[i..]) == p[i] + 256 * Un(p[i + 1..]) by { assert p[i..][1..] == p[i + 1..]; }
      MulDistributes(unit, p[i], Un(p[i + 1..]));
      x := x + p[i] * unit;
      unit := unit * 256;
    }
  }

  lemma MulDistributes(u: int, a: int, b: int)
    ensures u * (a + 256 * b) == a * u + (u * 256) * b
  {
  }

  /** A field of width `w` at `off` of a byte string. */
  function Field(f: seq<byte>, off: nat, w: nat): nat
    requires off + w <= |f|
  {
    Un(f[off..off + w])
  }

  lemma FieldOfLe(f: seq<byte>, off: nat, w: nat, x: nat)
    requires off + w <= |f| && f[off..off + w] == Le(x, w) && x < Pow256(w)
    ensures Field(f, off, w) == x
  {
    UnLe(x, w);
    ModUnique(x, Pow256(w), 0, x);
  }

  /** Four bytes at `off` as a 32-bit word, the least significant first. */
  function Word4(f: seq<byte>, off: nat): nat
    requires off + 4 <= |f|
  {
    var a: int, b: int, c: int, d: int := f[off], f[off + 1], f[off + 2], f[off + 3];
    a + 0x100 * b + 0x1_0000 * c + 0x100_0000 * d
  }

  /** Eight bytes at `off` as a 64-bit word. */
  function Word8(f: seq<byte>, off: nat): nat
    requires off + 8 <= |f|
  {
    Word4(f, off) + 0x1_0000_0000 * Word4(f, off + 4)
  }

  lemma UnFour(s: seq<byte>)
    requires |s| >= 4
    ensures Un(s) == s[0] + 0x100 * s[1] + 0x1_0000 * s[2] + 0x100_0000 * s[3] + 0x1_0000_0000 * Un(s[4..])
  {
    var a, b, c := s[1..], s[1..][1..], s[1..][1..][1..];
    assert c[1..] == s[4..] && a[0] == s[1] && b[0] == s[2] && c[0] == s[3];
    assert Un(s) == s[0] + 256 * Un(a) && Un(a) == a[0] + 256 * Un(b) && Un(b) == b[0] + 256 * Un(c);
    assert Un(c) == c[0] + 256 * Un(c[1..]);
  }

  /** A field is the word its bytes spell. */
  lemma FieldIsWord(f: seq<byte>, off: nat)
    ensures off + 4 <= |f| ==> Field(f, off, 4) == Word4(f, off)
    ensures off + 8 <= |f| ==> Field(f, off, 8) == Word8(f, off)
  {
    hide Un;
    if off + 4 <= |f| {
      UnFour(f[off..off + 4]);
      assert f[off..off + 4][4..] == [];
      EmptySpellsZero();
    }
    if off + 8 <= |f| {
      var s := f[off..off + 8];
      UnFour(s);
      UnFour(s[4..]);
      assert s[4..][4..] == [] && s[4..][0] == f[off + 4] && s[4..][1] == f[off + 5];
      assert s[4..][2] == f[off + 6] && s[4..][3] == f[off + 7];
      EmptySpellsZero();
    }
  }

  lemma EmptySpellsZero()
    ensures Un([]) == 0
  {
  }
}
