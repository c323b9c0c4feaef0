/** arrayutils.rs: 256-bit arithmetic, in place on big-endian byte arrays. */
module ArrayUtils {
  import opened Bytes

  // What the first i rounds of each loop have established about the bytes `cur`,
  // the bytes `was` at the start, and the carry or remainder in hand.

  ghost predicate Added(cur: seq<byte>, was: seq<byte>, add: seq<byte>, i: nat, carry: nat) {
    var n := |cur|;
    && i <= n == |was| == |add|
    && cur[..n - i] == was[..n - i]
    && Val(cur[n - i..]) + carry * Pow(i) == Val(was[n - i..]) + Val(add[n - i..])
  }

  ghost predicate Multiplied(cur: seq<byte>, was: seq<byte>, m: nat, i: nat, carry: nat) {
    var n := |cur|;
    && i <= n == |was|
    && cur[..n - i] == was[..n - i]
    && Val(cur[n - i..]) + carry * Pow(i) == Val(was[n - i..]) * m
  }

  ghost predicate Divided(cur: seq<byte>, was: seq<byte>, d: nat, i: nat, rest: nat) {
    && i <= |cur| == |was| && rest < d
    && cur[i..] == was[i..]
    && Val(was[..i]) == Val(cur[..i]) * d + rest
  }

  /** arr := (arr + add) mod 2^256; the last carry is dropped. */
  method AddInPlace(arr: array<byte>, add: U256)
    requires arr.Length == 32
    modifies arr
    ensures Val(arr[..]) == Wrap(Val(old(arr[..])) + Val(add))
  {
    ghost var was: seq<byte> := arr[..];
    var remainder: u32 := 0;
    for i := 0 to 32
      invariant remainder <= 1
      invariant Added(arr[..], was, add, i, remainder)
    {
      var pos := 31 - i;
      var val: u32 := arr[pos] + add[pos] + remainder;
      ghost var before: seq<byte> := arr[..];
      AddStep(before, was, add, i, remainder, val);
      arr[pos] := val % 256;
      remainder := val / 256;
      assert arr[..] == before[pos := val % 256];
    }
    ModulusIsPow();
    AddEnd(arr[..], was, add, remainder, Val(was) + Val(add));
  }

  /** arr := arr * multiplicator mod 2^256. */
  method MulInPlace(arr: array<byte>, multiplicator: u32)
    requires arr.Length == 32
    modifies arr
    ensures Val(arr[..]) == Wrap(Val(old(arr[..])) * multiplicator)
  {
    ghost var was: seq<byte> := arr[..];
    var remainder: u64 := 0;
    for i := 0 to 32
      invariant remainder <= multiplicator
      invariant Multiplied(arr[..], was, multiplicator, i, remainder)
    {
      var pos := 31 - i;
      ProductFits(arr[pos], multiplicator);
      var val: u64 := arr[pos] * multiplicator + remainder;
      ghost var before: seq<byte> := arr[..];
      MulStep(before, was, multiplicator, i, remainder, val);
      arr[pos] := val % 256;
      remainder := val / 256;
      assert arr[..] == before[pos := val % 256];
    }
    ModulusIsPow();
    MulEnd(arr[..], was, multiplicator, remainder);
  }

  /** arr := floor(arr / divisor). Dividing by zero panics: the array is then left as it was. */
  method DivInPlace(arr: array<byte>, divisor: u32) returns (ok: bool)
    requires arr.Length == 32
    modifies arr
    ensures ok <==> divisor != 0
    ensures ok ==> Val(arr[..]) == Val(old(arr[..])) / divisor
    ensures !ok ==> arr[..] == old(arr[..])
  {
    if divisor == 0 {
      return false;
    }
    ghost var was: seq<byte> := arr[..];
    var remainder: u64 := 0;
    ghost var rest: nat := 0;
    for i := 0 to 32
      invariant remainder == 256 * rest
      invariant Divided(arr[..], was, divisor, i, rest)
    {
      var val: u64 := arr[i] + remainder;
      ghost var before: seq<byte> := arr[..];
      DivStep(before, was, divisor, i, rest, val);
      var result: byte := val / divisor;
      rest := val % divisor;
      remainder := (val % divisor) * 256;
      arr[i] := result;
      assert arr[..] == before[i := result];
    }
    DivEnd(arr[..], was, divisor, rest);
    ok := true;
  }

  method GteArr(arr1: U256, arr2: U256) returns (r: bool)
    ensures r <==> Val(arr1) >= Val(arr2)
  {
    for i := 0 to 32
      invariant arr1[..i] == arr2[..i]
    {
      if arr1[i] > arr2[i] {
        FirstDifferenceDecides(arr2, arr1, i);
        return true;
      }
      if arr1[i] < arr2[i] {
        FirstDifferenceDecides(arr1, arr2, i);
        return false;
      }
      assert arr1[..i + 1] == arr1[..i] + [arr1[i]] && arr2[..i + 1] == arr2[..i] + [arr2[i]];
    }
    assert arr1 == arr1[..32] && arr2 == arr2[..32];
    r := true;
  }

  method LteArr(arr1: U256, arr2: U256) returns (r: bool)
    ensures r <==> Val(arr1) <= Val(arr2)
  {
    r := GteArr(arr2, arr1);
  }

  method GtArr(arr1: U256, arr2: U256) returns (r: bool)
    ensures r <==> Val(arr1) > Val(arr2)
  {
    for i := 0 to 32
      invariant arr1[..i] == arr2[..i]
    {
      if arr1[i] > arr2[i] {
        FirstDifferenceDecides(arr2, arr1, i);
        return true;
      }
      if arr1[i] < arr2[i] {
        FirstDifferenceDecides(arr1, arr2, i);
        return false;
      }
      assert arr1[..i + 1] == arr1[..i] + [arr1[i]] && arr2[..i + 1] == arr2[..i] + [arr2[i]];
    }
    assert arr1 == arr1[..32] && arr2 == arr2[..32];
    r := false;
  }

  // ---- one round of each loop, and what the last round leaves ----

  lemma SuffixStep(s: seq<byte>, i: nat)
    requires i < |s|
    ensures Val(s[|s| - 1 - i..]) == s[|s| - 1 - i] * Pow(i) + Val(s[|s| - i..])
  {
    assert s[|s| - 1 - i..] == [s[|s| - 1 - i]] + s[|s| - i..];
    ValCons(s[|s| - 1 - i], s[|s| - i..]);
  }

  lemma SetDigit(s: seq<byte>, i: nat, digit: byte)
    requires i < |s|
    ensures var t := s[|s| - 1 - i := digit];
            t[..|s| - 1 - i] == s[..|s| - 1 - i] && Val(t[|s| - 1 - i..]) == digit * Pow(i) + Val(s[|s| - i..])
  {
    var t := s[|s| - 1 - i := digit];
    SuffixStep(t, i);
    assert t[|s| - i..] == s[|s| - i..];
  }

  lemma PrefixShrinks(s: seq<byte>, t: seq<byte>, i: nat)
    requires i < |s| == |t| && s[..|s| - i] == t[..|s| - i]
    ensures s[..|s| - 1 - i] == t[..|s| - 1 - i] && s[|s| - 1 - i] == t[|s| - 1 - i]
  {
    assert s[..|s| - 1 - i] == s[..|s| - i][..|s| - 1 - i] && t[..|s| - 1 - i] == t[..|s| - i][..|s| - 1 - i];
    assert s[|s| - 1 - i] == s[..|s| - i][|s| - 1 - i] && t[|s| - 1 - i] == t[..|s| - i][|s| - 1 - i];
  }

  lemma AddStep(cur: seq<byte>, was: seq<byte>, add: seq<byte>, i: nat, carry: nat, val: nat)
    requires i < |cur| && Added(cur, was, add, i, carry)
    requires val == cur[|cur| - 1 - i] + add[|cur| - 1 - i] + carry
    ensures Added(cur[|cur| - 1 - i := val % 256], was, add, i + 1, val / 256)
  {
    PrefixShrinks(cur, was, i);
    SuffixStep(was, i);
    SuffixStep(add, i);
    SetDigit(cur, i, val % 256);
    AddDigits(val % 256, val / 256, was[|cur| - 1 - i], add[|cur| - 1 - i], carry, Pow(i));
  }

  lemma AddDigits(digit: int, carry: int, a: int, b: int, carried: int, p: int)
    requires digit + 256 * carry == a + b + carried
    ensures digit * p + carry * (256 * p) == a * p + b * p + carried * p
  {
    assert (digit + 256 * carry) * p == (a + b + carried) * p;
  }

  lemma AddEnd(cur: seq<byte>, was: seq<byte>, add: seq<byte>, carry: nat, total: nat)
    requires Added(cur, was, add, |cur|, carry)
    requires total == Val(was) + Val(add)
    ensures Val(cur) == total % Pow(|cur|)
  {
    assert cur[0..] == cur && was[0..] == was && add[0..] == add;
    ValBound(cur);
    QuotientRemainder(total, Pow(|cur|), carry, Val(cur));
  }

  lemma ProductFits(x: byte, m: u32)
    ensures 0 <= x * m <= 255 * m
  {
    MulMono(x, 255, m);
    MulMono(0, x, m);
  }

  lemma MulStep(cur: seq<byte>, was: seq<byte>, m: nat, i: nat, carry: nat, val: nat)
    requires i < |cur| && Multiplied(cur, was, m, i, carry)
    requires val == cur[|cur| - 1 - i] * m + carry
    ensures Multiplied(cur[|cur| - 1 - i := val % 256], was, m, i + 1, val / 256)
  {
    PrefixShrinks(cur, was, i);
    SuffixStep(was, i);
    SetDigit(cur, i, val % 256);
    MulDigits(val % 256, val / 256, was[|cur| - 1 - i], m, carry, Pow(i), Val(was[|cur| - i..]));
  }

  lemma MulDigits(digit: int, carry: int, x: int, m: int, carried: int, p: int, low: int)
    requires digit + 256 * carry == x * m + carried
    ensures digit * p + carry * (256 * p) + low * m == (x * p + low) * m + carried * p
  {
    AddDigits(digit, carry, x * m, 0, carried, p);
    assert (x * p + low) * m == (x * p) * m + low * m;
    assert (x * p) * m == (x * m) * p;
  }

  lemma MulEnd(cur: seq<byte>, was: seq<byte>, m: nat, carry: nat)
    requires Multiplied(cur, was, m, |cur|, carry)
    ensures Val(cur) == Val(was) * m % Pow(|cur|)
  {
    assert cur[0..] == cur && was[0..] == was;
    ValBound(cur);
    QuotientRemainder(Val(was) * m, Pow(|cur|), carry, Val(cur));
  }

  lemma QuotientFits(val: nat, d: nat)
    requires d > 0 && val < 256 * d
    ensures 0 <= val / d < 256
  {
    DivBounds(val, d);
    if val / d >= 256 {
      MulMono(256, val / d, d);
    }
  }

  lemma DivStep(cur: seq<byte>, was: seq<byte>, d: nat, i: nat, rest: nat, val: nat)
    requires i < |cur| && Divided(cur, was, d, i, rest)
    requires val == cur[i] + 256 * rest
    ensures 0 <= val / d < 256 && 0 <= val % d < d
    ensures Divided(cur[i := val / d], was, d, i + 1, val % d)
  {
    QuotientFits(val, d);
    var next := cur[i := val / d];
    assert cur[i] == was[i] by { assert cur[i] == cur[i..][0] && was[i] == was[i..][0]; }
    assert next[i + 1..] == was[i + 1..] by { assert next[i + 1..] == cur[i..][1..] && was[i + 1..] == was[i..][1..]; }
    assert was[..i + 1] == was[..i] + [was[i]] && next[..i + 1] == cur[..i] + [val / d];
    ValSnoc(was[..i], was[i]);
    ValSnoc(cur[..i], val / d);
    DivDigits(Val(cur[..i]), val, d);
  }

  lemma DivDigits(q: int, val: int, d: int)
    requires d > 0
    ensures (256 * q + val / d) * d + val % d == 256 * (q * d) + val
  {
    assert val == (val / d) * d + val % d;
  }

  lemma DivEnd(cur: seq<byte>, was: seq<byte>, d: nat, rest: nat)
    requires Divided(cur, was, d, |cur|, rest)
    ensures d > 0 && Val(cur) == Val(was) / d
  {
    assert cur[..|cur|] == cur && was[..|cur|] == was;
    QuotientRemainder(Val(was), d, Val(cur), rest);
  }
}
