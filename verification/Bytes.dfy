/** Fixed-width integers, and byte strings read as big-endian numbers. */
module Bytes {

  type byte = x: int | 0 <= x < 0x100
  type u32 = x: int | 0 <= x < 0x1_0000_0000
  type u64 = x: int | 0 <= x < 0x1_0000_0000_0000_0000

  const U32_MAX: int := 0xFFFF_FFFF
  const U64_MAX: int := 0xFFFF_FFFF_FFFF_FFFF

  /** A 256-bit number as the program stores it: 32 bytes, most significant first. */
  type U256 = s: seq<byte> | |s| == 32 witness seq(32, _ => 0)

  /** 256 to the power n, the weight of the byte that has n bytes after it. */
  function Pow(n: nat): (p: nat)
    ensures p > 0
  {
    if n == 0 then 1 else 256 * Pow(n - 1)
  }

  /** The number a big-endian byte string stands for. */
  function Val(s: seq<byte>): nat {
    if s == [] then 0 else 256 * Val(s[..|s| - 1]) + s[|s| - 1]
  }

  lemma {:induction false} ValBound(s: seq<byte>)
    ensures Val(s) < Pow(|s|)
  {
    if s != [] {
      ValBound(s[..|s| - 1]);
    }
  }

  /** The n-byte big-endian string that stands for v. */
  function Enc(v: nat, n: nat): (s: seq<byte>)
    requires v < Pow(n)
    ensures |s| == n && Val(s) == v
  {
    if n == 0 then [] else
      var front := Enc(v / 256, n - 1);
      assert (front + [v % 256])[..n - 1] == front;
      front + [v % 256]
  }

  function Reversed(s: seq<byte>): (r: seq<byte>)
    ensures |r| == |s|
    ensures forall i :: 0 <= i < |s| ==> r[i] == s[|s| - 1 - i]
  {
    if s == [] then [] else Reversed(s[1..]) + [s[0]]
  }

  // ---- arithmetic of powers ----

  lemma MulMono(a: int, b: int, c: nat)
    requires a <= b
    ensures a * c <= b * c
  {}

  lemma {:induction false} PowAdd(a: nat, b: nat)
    ensures Pow(a + b) == Pow(a) * Pow(b)
  {
    if a == 0 {
    } else {
      PowAdd(a - 1, b);
      assert Pow(a + b) == 256 * Pow(a - 1 + b);
      assert 256 * (Pow(a - 1) * Pow(b)) == (256 * Pow(a - 1)) * Pow(b);
    }
  }

  lemma {:induction false} PowMono(a: nat, b: nat)
    requires a <= b
    ensures Pow(a) <= Pow(b)
  {
    PowAdd(a, b - a);
    MulMono(1, Pow(b - a), Pow(a));
  }

  lemma NextPowers(k: nat)
    ensures Pow(k + 1) == 0x100 * Pow(k)
    ensures Pow(k + 2) == 0x1_0000 * Pow(k)
    ensures Pow(k + 3) == 0x100_0000 * Pow(k)
    ensures Pow(k + 5) == 0x100_0000_0000 * Pow(k)
  {
    assert Pow(k + 2) == 256 * Pow(k + 1);
    assert Pow(k + 3) == 256 * Pow(k + 2);
    assert Pow(k + 4) == 256 * Pow(k + 3);
    assert Pow(k + 5) == 256 * Pow(k + 4);
  }

  /** floor(q) is determined by its bounds. */
  lemma DivUnique(n: int, d: int, q: int)
    requires d > 0 && q * d <= n < (q + 1) * d
    ensures n / d == q
  {
    var r := n / d;
    assert n == r * d + n % d;
    if r < q {
      MulMono(r + 1, q, d);
    } else if r > q {
      MulMono(q + 1, r, d);
    }
  }

  lemma DivNonneg(n: nat, d: nat)
    requires d > 0
    ensures 0 <= n / d
  {}

  function Product(a: nat, b: nat): (p: nat)
    ensures p == a * b
  {
    MulMono(0, a, b);
    a * b
  }

  /** 2 to the power 256. */
  const MODULUS: nat := 0x1_0000_0000_0000_0000_0000_0000_0000_0000_0000_0000_0000_0000_0000_0000_0000_0000

  /** What 256 bits keep of v. */
  ghost function Wrap(v: nat): nat { v % MODULUS }

  lemma ModulusIsPow()
    ensures Pow(32) == MODULUS
  {
    PowAdd(4, 4);
    PowAdd(8, 8);
    PowAdd(16, 16);
    assert Pow(4) == 0x1_0000_0000;
    assert Pow(8) == 0x1_0000_0000_0000_0000;
    assert Pow(16) == 0x1_0000_0000_0000_0000_0000_0000_0000_0000;
  }

  function Quotient(n: nat, d: nat): (q: nat)
    requires d > 0
    ensures q == n / d
  {
    DivNonneg(n, d);
    n / d
  }

  lemma DivBounds(n: int, d: int)
    requires d > 0
    ensures (n / d) * d <= n < (n / d + 1) * d
  {
    assert n == (n / d) * d + n % d;
  }

  /** Two successive floor divisions are one. */
  lemma DivDiv(n: nat, a: nat, b: nat)
    requires a > 0 && b > 0
    ensures a * b > 0 && (n / a) / b == n / (a * b)
  {
    var p := n / a;
    var q := p / b;
    DivBounds(n, a);
    DivBounds(p, b);
    MulMono(q * b, p, a);
    MulMono(p + 1, (q + 1) * b, a);
    assert (q * b) * a == q * (a * b);
    assert ((q + 1) * b) * a == (q + 1) * (a * b);
    MulMono(1, a, b);
    DivUnique(n, a * b, q);
  }

  lemma DivMono(a: int, b: int, d: int)
    requires a <= b && d > 0
    ensures a / d <= b / d
  {
    DivBounds(a, d);
    DivBounds(b, d);
    if b / d < a / d {
      MulMono(b / d + 1, a / d, d);
    }
  }

  // ---- values of byte strings ----

  lemma ValSnoc(s: seq<byte>, x: byte)
    ensures Val(s + [x]) == 256 * Val(s) + x
  {
    assert (s + [x])[..|s|] == s;
  }

  lemma {:induction false} ValConcat(a: seq<byte>, b: seq<byte>)
    ensures Val(a + b) == Val(a) * Pow(|b|) + Val(b)
  {
    if b == [] {
      assert a + b == a;
    } else {
      var c, x := b[..|b| - 1], b[|b| - 1];
      ValConcat(a, c);
      assert a + b == (a + c) + [x];
      ValSnoc(a + c, x);
      Scale(Val(a), Pow(|c|));
    }
  }

  lemma Scale(v: int, p: int)
    ensures 256 * (v * p) == v * (256 * p)
  {}

  lemma QuotientRemainder(v: int, p: int, q: int, r: int)
    requires v == q * p + r && 0 <= r < p
    ensures q == v / p && r == v % p
  {
    assert (q + 1) * p == q * p + p;
    DivUnique(v, p, q);
    assert v == (v / p) * p + v % p;
  }

  /** Splitting a string at i splits its number into quotient and remainder. */
  lemma ValSplit(s: seq<byte>, i: nat)
    requires i <= |s|
    ensures Val(s) == Val(s[..i]) * Pow(|s| - i) + Val(s[i..])
  {
    assert s == s[..i] + s[i..];
    ValConcat(s[..i], s[i..]);
  }

  lemma ValParts(s: seq<byte>, i: nat)
    requires i <= |s|
    ensures Val(s[..i]) == Val(s) / Pow(|s| - i)
    ensures Val(s[i..]) == Val(s) % Pow(|s| - i)
  {
    ValSplit(s, i);
    ValBound(s[i..]);
    QuotientRemainder(Val(s), Pow(|s| - i), Val(s[..i]), Val(s[i..]));
  }

  lemma ValCons(x: byte, s: seq<byte>)
    ensures Val([x] + s) == x * Pow(|s|) + Val(s)
  {
    ValConcat([x], s);
    assert Val([x]) == x;
  }

  lemma {:induction false} ValInjective(a: seq<byte>, b: seq<byte>)
    requires |a| == |b| && Val(a) == Val(b)
    ensures a == b
  {
    if a == [] {
    } else {
      ValInjective(a[..|a| - 1], b[..|b| - 1]);
      assert a == a[..|a| - 1] + [a[|a| - 1]];
      assert b == b[..|b| - 1] + [b[|b| - 1]];
    }
  }

  lemma {:induction false} ValZeros(s: seq<byte>)
    requires forall i :: 0 <= i < |s| ==> s[i] == 0
    ensures Val(s) == 0
  {
    if s != [] {
      ValZeros(s[..|s| - 1]);
    }
  }

  lemma {:induction false} ValSkipZeros(s: seq<byte>, i: nat)
    requires i <= |s| && forall j :: 0 <= j < i ==> s[j] == 0
    ensures Val(s) == Val(s[i..])
  {
    if i == |s| {
      ValZeros(s);
    } else {
      var n := |s| - 1;
      ValSkipZeros(s[..n], i);
      assert s[i..][..|s[i..]| - 1] == s[..n][i..];
    }
  }

  /** The first differing byte decides the comparison. */
  lemma {:induction false} FirstDifferenceDecides(a: seq<byte>, b: seq<byte>, i: nat)
    requires |a| == |b| && i < |a| && a[..i] == b[..i] && a[i] < b[i]
    ensures Val(a) < Val(b)
  {
    var n := |a| - 1;
    var a', b' := a[..n], b[..n];
    if i == n {
      assert a' == b';
    } else {
      assert a'[..i] == a[..i] && b'[..i] == b[..i];
      FirstDifferenceDecides(a', b', i);
    }
  }
}
