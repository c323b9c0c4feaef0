/** utils.rs, first half: the compact form of difficulty targets, difficulty, retargeting. */
module NBits {
  import opened Bytes
  import opened Results
  import ArrayUtils

  const SIGN: nat := 0x80_0000
  const SIZE_UNIT: nat := 0x100_0000

  const TARGET_TIMESPAN: u32 := 14 * 24 * 60 * 60
  const TARGET_TIMESPAN_DIV_4: u32 := TARGET_TIMESPAN / 4
  const TARGET_TIMESPAN_MUL_4: u32 := TARGET_TIMESPAN * 4

  const MAX_DIFFICULTY: U256 := [
    0x00, 0x00, 0x00, 0x00, 0xFF, 0xFF, 0x00, 0x00, 0x00, 0x00, 0x00, 0x00, 0x00, 0x00, 0x00, 0x00,
    0x00, 0x00, 0x00, 0x00, 0x00, 0x00, 0x00, 0x00, 0x00, 0x00, 0x00, 0x00, 0x00, 0x00, 0x00, 0x00
  ]
  const UNROUNDED_MAX_TARGET: U256 := [
    0x00, 0x00, 0x00, 0x00, 0xFF, 0xFF, 0xFF, 0xFF, 0xFF, 0xFF, 0xFF, 0xFF, 0xFF, 0xFF, 0xFF, 0xFF,
    0xFF, 0xFF, 0xFF, 0xFF, 0xFF, 0xFF, 0xFF, 0xFF, 0xFF, 0xFF, 0xFF, 0xFF, 0xFF, 0xFF, 0xFF, 0xFF
  ]

  ghost function MaxTarget(): nat { Val(MAX_DIFFICULTY) }
  ghost function UnroundedMaxTarget(): nat { Val(UNROUNDED_MAX_TARGET) }

  // ---------------------------------------------------------------- numeric definitions

  /** How many bytes it takes to write v. */
  function ByteLen(v: nat): nat {
    if v == 0 then 0 else 1 + ByteLen(v / 256)
  }

  /** The three leading bytes of v; short numbers are padded with zero bytes on the right. */
  function Lead(v: nat): nat {
    var size := ByteLen(v);
    if size <= 3 then Product(v, Pow(3 - size)) else Quotient(v, Pow(size - 3))
  }

  /** The compact form of v: a size byte, then a three-byte mantissa whose top bit is kept clear. */
  function Compact(v: nat): nat {
    Pack(Lead(v), ByteLen(v))
  }

  function Pack(word: nat, size: nat): nat {
    if word < SIGN then size * SIZE_UNIT + word else (size + 1) * SIZE_UNIT + word / 256
  }

  function SizeOf(nbits: u32): nat { nbits / SIZE_UNIT }
  function WordOf(nbits: u32): nat { nbits % SIGN }

  /** The number a mantissa stands for at a given size; bytes right of the point are dropped. */
  function Expand(word: nat, size: nat): nat {
    if size <= 3 then Quotient(word, Pow(3 - size)) else Product(word, Pow(size - 3))
  }

  /** The target nbits stands for; meaningful when SizeOf(nbits) <= 32. */
  function Decode(nbits: u32): nat {
    Expand(WordOf(nbits), SizeOf(nbits))
  }

  lemma {:induction false} ByteLenBounds(v: nat)
    requires v > 0
    ensures ByteLen(v) > 0 && Pow(ByteLen(v) - 1) <= v < Pow(ByteLen(v))
  {
    if v >= 256 {
      ByteLenBounds(v / 256);
    } else {
      assert ByteLen(v / 256) == 0;
    }
  }

  lemma ByteLenUnique(v: nat, k: nat)
    requires k > 0 && Pow(k - 1) <= v < Pow(k)
    ensures ByteLen(v) == k
  {
    ByteLenBounds(v);
    if ByteLen(v) < k {
      PowMono(ByteLen(v), k - 1);
    } else if k < ByteLen(v) {
      PowMono(k, ByteLen(v) - 1);
    }
  }

  lemma ByteLenAtMost(v: nat, k: nat)
    requires v < Pow(k)
    ensures ByteLen(v) <= k
  {
    if v > 0 && ByteLen(v) > k {
      ByteLenBounds(v);
      PowMono(k, ByteLen(v) - 1);
    }
  }

  lemma SmallPowers()
    ensures Pow(0) == 1 && Pow(1) == 0x100 && Pow(2) == 0x1_0000 && Pow(3) == 0x100_0000
  {}

  lemma LeadBounds(v: nat)
    ensures Lead(v) < SIZE_UNIT
    ensures v > 0 ==> 0x1_0000 <= Lead(v)
  {
    if v > 0 {
      var size := ByteLen(v);
      ByteLenBounds(v);
      SmallPowers();
      if size <= 3 {
        PowAdd(size - 1, 3 - size);
        PowAdd(size, 3 - size);
        MulMono(Pow(size - 1), v, Pow(3 - size));
        MulMono(v + 1, Pow(size), Pow(3 - size));
      } else {
        QuotientRange(v, Pow(2), Pow(3), size - 3);
      }
    }
  }

  lemma QuotientRange(v: nat, lo: nat, hi: nat, k: nat)
    requires lo * Pow(k) <= v < hi * Pow(k) || (lo == Pow(2) && hi == Pow(3) && Pow(k + 2) <= v < Pow(k + 3))
    ensures lo <= v / Pow(k) < hi
  {
    PowAdd(2, k);
    PowAdd(3, k);
    DivBounds(v, Pow(k));
    if v / Pow(k) < lo {
      MulMono(v / Pow(k) + 1, lo, Pow(k));
    }
    if v / Pow(k) >= hi {
      MulMono(hi, v / Pow(k), Pow(k));
    }
  }

  // ---------------------------------------------------------------- target_to_nbits

  /** The first loop of target_to_nbits and of get_difficulty; 32 when the target is zero. */
  method LeadingByte(target: U256) returns (start: nat)
    ensures start <= 32
    ensures forall j :: 0 <= j < start ==> target[j] == 0
    ensures start < 32 ==> target[start] > 0
  {
    for i := 0 to 32
      invariant forall j :: 0 <= j < i ==> target[j] == 0
    {
      if target[i] > 0 {
        return i;
      }
    }
    start := 32;
  }

  /** Their second loop: three bytes OR-ed into disjoint lanes, bytes past the end reading as zero. */
  method ReadWord(bytes: seq<byte>) returns (n: u32)
    ensures n == Digit(bytes, 0) * 0x1_0000 + Digit(bytes, 1) * 0x100 + Digit(bytes, 2)
  {
    n := 0;
    for i := 0 to 3
      invariant n == (if i > 0 then Digit(bytes, 0) * 0x1_0000 else 0)
                   + (if i > 1 then Digit(bytes, 1) * 0x100 else 0)
                   + (if i > 2 then Digit(bytes, 2) else 0)
    {
      if i < |bytes| {
        var lane: u32 := bytes[i];
        n := n + (if i == 0 then lane * 0x1_0000 else if i == 1 then lane * 0x100 else lane);
      }
    }
  }

  method TargetToNbits(target: U256) returns (nCompact: u32)
    ensures nCompact == Compact(Val(target))
  {
    var start := LeadingByte(target);
    var nSize: u32 := 32 - start;
    nCompact := ReadWord(target[start..]);
    LeadingZeros(target, nSize);
    LeadOfDigits(target[start..]);
    LeadBounds(Val(target));
    PackLanes(nCompact, nSize);
    if (nCompact / SIGN) % 2 > 0 {
      nCompact := nCompact / 256;
      nSize := nSize + 1;
    }
    nCompact := nCompact % SIZE_UNIT + (nSize % 256) * SIZE_UNIT;
  }

  lemma PackLanes(word: nat, size: nat)
    requires word < SIZE_UNIT && size <= 32
    ensures (word / SIGN) % 2 > 0 ==>
              Pack(word, size) == (word / 256) % SIZE_UNIT + ((size + 1) % 256) * SIZE_UNIT
    ensures (word / SIGN) % 2 == 0 ==>
              Pack(word, size) == word % SIZE_UNIT + (size % 256) * SIZE_UNIT
  {}

  ghost function Digit(s: seq<byte>, i: nat): nat {
    if i < |s| then s[i] else 0
  }

  lemma LeadingZeros(target: U256, size: nat)
    requires size <= 32
    requires forall j :: 0 <= j < 32 - size ==> target[j] == 0
    requires size > 0 ==> target[32 - size] > 0
    ensures Val(target) == Val(target[32 - size..])
    ensures ByteLen(Val(target)) == size
  {
    var s := target[32 - size..];
    ValSkipZeros(target, 32 - size);
    if size > 0 {
      NonzeroLead(s);
      ByteLenUnique(Val(s), size);
    }
  }

  lemma NonzeroLead(s: seq<byte>)
    requires s != [] && s[0] > 0
    ensures Pow(|s| - 1) <= Val(s) < Pow(|s|)
  {
    ValBound(s);
    assert s == [s[0]] + s[1..];
    ValCons(s[0], s[1..]);
    MulMono(1, s[0], Pow(|s| - 1));
  }

  /** Val of up to three bytes, written out. */
  lemma ValShort(s: seq<byte>)
    requires |s| <= 3
    ensures |s| == 0 ==> Val(s) == 0
    ensures |s| == 1 ==> Val(s) == Digit(s, 0)
    ensures |s| == 2 ==> Val(s) == 0x100 * Digit(s, 0) + Digit(s, 1)
    ensures |s| == 3 ==> Val(s) == 0x1_0000 * Digit(s, 0) + 0x100 * Digit(s, 1) + Digit(s, 2)
  {
    if |s| > 0 {
      ValShort(s[..|s| - 1]);
    }
  }

  lemma LeadOfDigits(s: seq<byte>)
    requires ByteLen(Val(s)) == |s|
    ensures Lead(Val(s)) == Digit(s, 0) * 0x1_0000 + Digit(s, 1) * 0x100 + Digit(s, 2)
  {
    if |s| <= 3 {
      ValShort(s);
      LeadOfShort(Val(s));
    } else {
      assert Lead(Val(s)) == Val(s[..3]) by { ValParts(s, 3); }
      ValShort(s[..3]);
    }
  }

  lemma LeadOfShort(v: nat)
    ensures ByteLen(v) == 0 ==> Lead(v) == 0
    ensures ByteLen(v) == 1 ==> Lead(v) == 0x1_0000 * v
    ensures ByteLen(v) == 2 ==> Lead(v) == 0x100 * v
    ensures ByteLen(v) == 3 ==> Lead(v) == v
  {
    SmallPowers();
  }

  // ---------------------------------------------------------------- nbits_to_target

  /** The mantissa's three bytes, sign bit masked off. */
  function NWord(nbits: u32): (w: seq<byte>)
    ensures |w| == 3 && Val(w) == WordOf(nbits)
  {
    var w: seq<byte> := [(nbits / 0x1_0000) % 128, (nbits / 0x100) % 256, nbits % 256];
    ValShort(w);
    Lanes(nbits);
    w
  }

  /** Panics exactly when the size byte exceeds 32. */
  method NbitsToTarget(nbits: u32) returns (r: Result<U256>)
    ensures SizeOf(nbits) > 32 ==> r == Err(Panic)
    ensures SizeOf(nbits) <= 32 ==> r.Ok? && Val(r.value) == Decode(nbits)
  {
    var target := new byte[32](_ => 0);
    var nSize := nbits / SIZE_UNIT;
    var nWord := NWord(nbits);
    if nSize > 32 {
      return Err(Panic);
    }
    var start := 32 - nSize;
    for i := 0 to 3
      invariant forall j :: 0 <= j < 32 && !(start <= j < start + i) ==> target[j] == 0
      invariant forall j :: 0 <= j < i && start + j < 32 ==> target[start + j] == nWord[j]
    {
      if start + i < 32 {
        target[start + i] := nWord[i];
      }
    }
    PlacedWord(target[..], nWord, nSize);
    r := Ok(target[..]);
  }

  lemma Lanes(n: nat)
    ensures n % SIGN == (n / 0x1_0000) % 128 * 0x1_0000 + n % 0x1_0000
    ensures n % 0x1_0000 == (n / 0x100) % 256 * 0x100 + n % 0x100
  {
    var high, mid := n / 0x1_0000, n / 0x100;
    assert n == high / 128 * SIGN + (high % 128 * 0x1_0000 + n % 0x1_0000);
    assert n == mid / 256 * 0x1_0000 + (mid % 256 * 0x100 + n % 0x100);
  }

  lemma PlacedWord(target: U256, w: seq<byte>, size: nat)
    requires |w| == 3 && size <= 32
    requires forall j :: 0 <= j < 32 && !(32 - size <= j < 35 - size) ==> target[j] == 0
    requires forall j :: 0 <= j < 3 && 32 - size + j < 32 ==> target[32 - size + j] == w[j]
    ensures Val(target) == Expand(Val(w), size)
  {
    var start := 32 - size;
    ValSkipZeros(target, start);
    var s := target[start..];
    if size <= 3 {
      assert s == w[..size];
      ValParts(w, size);
    } else {
      assert s[..3] == w;
      ValSplit(s, 3);
      ValZeros(s[3..]);
    }
  }

  // ---------------------------------------------------------------- get_difficulty

  /** What get_difficulty computes: divide by the three leading bytes, then shift by the others. */
  ghost function Difficulty(t: nat): Result<nat> {
    if t < 0x1_0000 then Err(Panic) else
      ThreeByteNumber(t);
      Ok(Quotient(Quotient(MaxTarget(), Lead(t)), Pow(ByteLen(t) - 3)))
  }

  lemma ThreeByteNumber(t: nat)
    ensures t >= 0x1_0000 <==> ByteLen(t) >= 3
    ensures t >= 0x1_0000 ==> 0 < Lead(t) < SIZE_UNIT
  {
    SmallPowers();
    LeadBounds(t);
    if t > 0 {
      ByteLenBounds(t);
      if ByteLen(t) < 3 {
        PowMono(ByteLen(t), 2);
      } else {
        PowMono(2, ByteLen(t) - 1);
      }
    }
  }

  const WORK_LIMIT: nat := 0x1_0000_0000_0000_0000_0000_0000_0000_0000_0000_0000_0000_0000_0000  // 2^208

  lemma WorkLimitIsPow()
    ensures Pow(26) == WORK_LIMIT
  {
    PowAdd(16, 10);
    PowAdd(8, 8);
    PowAdd(8, 2);
    PowAdd(4, 4);
    assert Pow(4) == 0x1_0000_0000;
  }

  lemma MaxTargetIsPow()
    ensures MaxTarget() == 0xFFFF * Pow(26)
  {
    hide Pow, Val;
    TwoOnes(MAX_DIFFICULTY, 26);
  }

  lemma MaxTargetValue()
    ensures MaxTarget() == 0xFFFF * WORK_LIMIT
  {
    hide Pow, MaxTarget;
    MaxTargetIsPow();
    WorkLimitIsPow();
  }

  lemma TwoOnes(s: seq<byte>, k: nat)
    requires |s| == k + 6 && s[4] == s[5] == 0xFF
    requires forall j :: 0 <= j < |s| && j != 4 && j != 5 ==> s[j] == 0
    ensures Val(s) == 0xFFFF * Pow(k)
  {
    ValSkipZeros(s[..6], 4);
    ValShort(s[..6][4..]);
    assert Val(s[..6]) == 0xFFFF;
    ValSplit(s, 6);
    ValZeros(s[6..]);
  }

  lemma {:induction false} AllOnes(s: seq<byte>)
    requires forall i :: 0 <= i < |s| ==> s[i] == 0xFF
    ensures Val(s) == Pow(|s|) - 1
  {
    if s != [] {
      AllOnes(s[..|s| - 1]);
    }
  }

  lemma UnroundedMaxTargetIsPow()
    ensures UnroundedMaxTarget() == Pow(28) - 1
  {
    hide Val, Pow;
    var s := UNROUNDED_MAX_TARGET;
    ValSkipZeros(s, 4);
    AllOnes(s[4..]);
  }

  lemma UnroundedMaxTargetValue()
    ensures UnroundedMaxTarget() == 0x1_0000 * WORK_LIMIT - 1
  {
    hide Pow, UnroundedMaxTarget;
    UnroundedMaxTargetIsPow();
    WorkLimitIsPow();
    PowAdd(26, 2);
    SmallPowers();
  }

  /** Panics exactly when fewer than three bytes of the target are in use. */
  method GetDifficulty(target: U256) returns (r: Result<U256>)
    ensures Difficulty(Val(target)).Err? ==> r == Err(Panic)
    ensures Difficulty(Val(target)).Ok? ==> r.Ok? && Val(r.value) == Difficulty(Val(target)).value
  {
    var start := LeadingByte(target);
    LeadingZeros(target, 32 - start);
    ThreeByteNumber(Val(target));
    if start == 32 {
      start := 0;
    }
    if 32 - start < 3 {
      return Err(Panic);
    }
    var shift := 32 - start - 3;
    var num := ReadWord(target[start..]);
    ghost var t := Val(target);
    if t > 0 {
      LeadOfDigits(target[start..]);
    }

    var arr := new byte[32](i requires 0 <= i < 32 => MAX_DIFFICULTY[i]);
    assert arr[..] == MAX_DIFFICULTY;
    var divided := ArrayUtils.DivInPlace(arr, num);
    if !divided {
      return Err(Panic);
    }
    var result := ShiftRight(arr[..], shift);
    DifficultyByParts(t, num, shift, Val(arr[..]), Val(result));
    r := Ok(result);
  }

  lemma DifficultyByParts(t: nat, num: nat, shift: nat, divided: nat, shifted: nat)
    requires t >= 0x1_0000 && num == Lead(t) && num > 0 && shift == ByteLen(t) - 3
    requires divided == MaxTarget() / num && shifted == divided / Pow(shift)
    ensures Difficulty(t) == Ok(shifted)
  {}

  /** The closing copy loop of get_difficulty. */
  method ShiftRight(arr: U256, shift: nat) returns (r: U256)
    requires shift <= 32
    ensures Val(r) == Val(arr) / Pow(shift)
  {
    var result := new byte[32](_ => 0);
    for i := 0 to 32 - shift
      invariant forall j :: 0 <= j < shift ==> result[j] == 0
      invariant forall j :: 0 <= j < i ==> result[j + shift] == arr[j]
    {
      result[i + shift] := arr[i];
    }
    ShiftedRight(arr, result[..], shift);
    r := result[..];
  }

  lemma ShiftedRight(arr: seq<byte>, result: seq<byte>, shift: nat)
    requires shift <= |arr| == |result|
    requires forall j :: 0 <= j < shift ==> result[j] == 0
    requires forall j :: 0 <= j < |arr| - shift ==> result[j + shift] == arr[j]
    ensures Val(result) == Val(arr) / Pow(shift)
  {
    ValSkipZeros(result, shift);
    assert result[shift..] == arr[..|arr| - shift];
    ValParts(arr, |arr| - shift);
  }

  // ---------------------------------------------------------------- compute_new_nbits

  function Clamp(span: nat): (c: nat)
    ensures TARGET_TIMESPAN_DIV_4 <= c <= TARGET_TIMESPAN_MUL_4
  {
    if span < TARGET_TIMESPAN_DIV_4 then TARGET_TIMESPAN_DIV_4
    else if span > TARGET_TIMESPAN_MUL_4 then TARGET_TIMESPAN_MUL_4
    else span
  }

  ghost function Min(a: nat, b: nat): nat {
    if a > b then b else a
  }

  /** The previous target scaled by the clamped time span, in 256-bit arithmetic. */
  ghost function Scaled(t: nat, span: nat): nat {
    Quotient(Wrap(Product(t, Clamp(span))), TARGET_TIMESPAN)
  }

  /** The nBits a retarget asks for; panics when the clock of the epoch ran backwards. */
  ghost function NewNbits(prevTime: u32, startTime: u32, t: nat): Result<nat> {
    if prevTime < startTime then Err(Panic)
    else Ok(Compact(Min(Scaled(t, prevTime - startTime), UnroundedMaxTarget())))
  }

  lemma ScaledExplicitly(t: nat, span: nat)
    ensures Scaled(t, span) == if span < 302400 then Wrap(Product(t, 302400)) / 1209600
                               else if span <= 4838400 then Wrap(Product(t, span)) / 1209600
                               else Wrap(Product(t, 4838400)) / 1209600
  {
    hide Wrap;
  }

  lemma ScaledByParts(t: nat, span: nat, product: nat, scaled: nat)
    requires product == Wrap(t * Clamp(span)) && scaled == product / TARGET_TIMESPAN
    ensures scaled == Scaled(t, span)
  {}

  /** The multiplication and division of compute_new_nbits. */
  method ScaleTarget(prevTarget: array<byte>, timeSpan: u32, ghost span: nat)
    requires prevTarget.Length == 32 && timeSpan == Clamp(span)
    modifies prevTarget
    ensures Val(prevTarget[..]) == Scaled(Val(old(prevTarget[..])), span)
  {
    ghost var t := Val(prevTarget[..]);
    ArrayUtils.MulInPlace(prevTarget, timeSpan);
    ghost var product := Val(prevTarget[..]);
    var divided := ArrayUtils.DivInPlace(prevTarget, TARGET_TIMESPAN);
    ScaledByParts(t, span, product, Val(prevTarget[..]));
  }

  method ComputeNewNbits(prevTime: u32, startTime: u32, prevTarget: array<byte>) returns (r: Result<u32>)
    requires prevTarget.Length == 32
    modifies prevTarget
    ensures r == NewNbits(prevTime, startTime, Val(old(prevTarget[..])))
    ensures r.Ok? <==> prevTime >= startTime
    ensures r.Ok? ==>
              var (t, span) := (Val(old(prevTarget[..])), prevTime - startTime);
              Val(prevTarget[..]) == if span < 302400 then Wrap(Product(t, 302400)) / 1209600
                                     else if span <= 4838400 then Wrap(Product(t, span)) / 1209600
                                     else Wrap(Product(t, 4838400)) / 1209600
  {
    hide Compact, Scaled, Val, Wrap;
    if prevTime < startTime {
      return Err(Panic);
    }
    var timeSpan: u32 := prevTime - startTime;
    if timeSpan < TARGET_TIMESPAN_DIV_4 {
      timeSpan := TARGET_TIMESPAN_DIV_4;
    }
    if timeSpan > TARGET_TIMESPAN_MUL_4 {
      timeSpan := TARGET_TIMESPAN_MUL_4;
    }
    ScaleTarget(prevTarget, timeSpan, prevTime - startTime);
    ScaledExplicitly(Val(old(prevTarget[..])), prevTime - startTime);

    var tooEasy := ArrayUtils.GtArr(prevTarget[..], UNROUNDED_MAX_TARGET);
    var nbits;
    if tooEasy {
      nbits := TargetToNbits(UNROUNDED_MAX_TARGET);
    } else {
      nbits := TargetToNbits(prevTarget[..]);
    }
    r := Ok(nbits);
  }
}
