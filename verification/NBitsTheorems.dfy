/** What the compact form, the difficulty and the retarget mean as numbers. */
module NBitsTheorems {
  import opened Bytes
  import opened Results
  import opened NBits

  // ---------------------------------------------------------------- the compact form

  lemma {:induction false} UnpackPack(word: nat, size: nat)
    requires (word < SIZE_UNIT && size <= 31) || (word < SIGN && size <= 32)
    ensures Pack(word, size) <= U32_MAX
    ensures SizeOf(Pack(word, size)) == (if word < SIGN then size else size + 1)
    ensures WordOf(Pack(word, size)) == (if word < SIGN then word else word / 256)
    ensures Pack(word, size) % SIZE_UNIT < SIGN
  {}

  /** Below 2^255 the compact form has size at most 32, so it can be expanded again. */
  lemma CompactParts(v: nat)
    requires 2 * v < MODULUS
    ensures Lead(v) < SIZE_UNIT && ByteLen(v) <= 32 && (ByteLen(v) == 32 ==> Lead(v) < SIGN)
    ensures Compact(v) <= U32_MAX
    ensures SizeOf(Compact(v)) == (if Lead(v) < SIGN then ByteLen(v) else ByteLen(v) + 1) <= 32
    ensures WordOf(Compact(v)) == (if Lead(v) < SIGN then Lead(v) else Lead(v) / 256)
    ensures Compact(v) % SIZE_UNIT < SIGN
  {
    LeadBounds(v);
    ModulusIsPow();
    ByteLenAtMost(v, 32);
    if ByteLen(v) == 32 {
      HalfRange(v, 29);
    }
    UnpackPack(Lead(v), ByteLen(v));
  }

  lemma HalfRange(v: nat, k: nat)
    requires 2 * v < Pow(k + 3)
    ensures v / Pow(k) < SIGN
  {
    PowAdd(3, k);
    SmallPowers();
    DivBounds(v, Pow(k));
    if v / Pow(k) >= SIGN {
      MulMono(SIGN, v / Pow(k), Pow(k));
    }
  }

  /** How many low bytes of v its compact form drops. */
  ghost function Dropped(v: nat): nat {
    if v < SIGN then 0 else if Lead(v) < SIGN then Sub(ByteLen(v), 3) else Sub(ByteLen(v), 2)
  }

  ghost function Sub(a: nat, b: nat): nat { if a < b then 0 else a - b }

  lemma LongNumber(v: nat)
    requires v >= SIGN
    ensures ByteLen(v) >= 3 && (ByteLen(v) == 3 ==> Lead(v) == v)
    ensures Lead(v) == v / Pow(ByteLen(v) - 3)
  {
    ThreeByteNumber(v);
    SmallPowers();
    assert v / 1 == v;
  }

  lemma ShortNumber(v: nat)
    requires v < SIGN
    ensures ByteLen(v) <= 3 && Lead(v) == v * Pow(3 - ByteLen(v))
    ensures Lead(v) >= SIGN ==> 0 < ByteLen(v) <= 2
  {
    SmallPowers();
    ByteLenAtMost(v, 3);
    if ByteLen(v) == 3 {
      assert Lead(v) == v * 1;
    } else if v == 0 {
      assert Lead(v) == 0 * Pow(3);
    }
  }

  lemma ExactQuotient(v: nat, k: nat)
    ensures v * Pow(k) / Pow(k) == v
  {
    MulMono(v, v + 1, Pow(k));
    DivUnique(v * Pow(k), Pow(k), v);
  }

  /** Compacting and expanding again clears exactly the dropped bytes. */
  lemma RoundTripTruncates(v: nat)
    requires 2 * v < MODULUS
    ensures Compact(v) <= U32_MAX && SizeOf(Compact(v)) <= 32
    ensures Decode(Compact(v)) == v / Pow(Dropped(v)) * Pow(Dropped(v))
    ensures v >= SIGN ==> 0x8000 <= v / Pow(Dropped(v)) < SIGN
  {
    CompactParts(v);
    if v < SIGN {
      ShortTruncates(v);
      assert Pow(Dropped(v)) == 1 && v / 1 * 1 == v;
    } else {
      LongTruncates(v);
    }
  }

  lemma ShortTruncates(v: nat)
    requires v < SIGN
    ensures Lead(v) < SIGN ==> Expand(Lead(v), ByteLen(v)) == v
    ensures Lead(v) >= SIGN ==> Expand(Lead(v) / 256, ByteLen(v) + 1) == v
  {
    ShortNumber(v);
    var size := ByteLen(v);
    if Lead(v) < SIGN {
      ExactQuotient(v, 3 - size);
    } else {
      assert Lead(v) / 256 == v * Pow(2 - size) by { Scale(v, Pow(2 - size)); }
      ExactQuotient(v, 2 - size);
    }
  }

  lemma LongTruncates(v: nat)
    requires v >= SIGN
    ensures var size, p := ByteLen(v), Pow(Dropped(v));
            && size >= 3
            && 0x8000 <= v / p < SIGN
            && (Lead(v) < SIGN ==> Expand(Lead(v), size) == v / p * p)
            && (Lead(v) >= SIGN ==> Expand(Lead(v) / 256, size + 1) == v / p * p)
  {
    LeadBounds(v);
    LongNumber(v);
    var size := ByteLen(v);
    if Lead(v) >= SIGN {
      DivDiv(v, Pow(size - 3), 256);
      assert Pow(size - 3) * 256 == Pow(size - 2);
    }
  }

  lemma TruncationError(v: nat, p: nat)
    requires p > 0
    ensures v / p * p <= v
    ensures v / p >= 0x8000 ==> (v - v / p * p) * 0x8000 < v
  {
    DivBounds(v, p);
    var q := v / p;
    var whole := q * p;
    assert (q + 1) * p == whole + p;
    if q >= 0x8000 {
      MulMono(0x8000, q, p);
    }
  }

  /** For every target below 2^255 the round trip loses less than one part in 2^15, and never adds. */
  lemma CompactError(v: nat)
    requires 2 * v < MODULUS
    ensures Compact(v) <= U32_MAX && SizeOf(Compact(v)) <= 32
    ensures Decode(Compact(v)) <= v
    ensures v > 0 ==> (v - Decode(Compact(v))) * 0x8000 < v
  {
    RoundTripTruncates(v);
    TruncationError(v, Pow(Dropped(v)));
  }

  /** Equal units, or the finer one's number is short of the coarser one's by the gap between mantissas. */
  ghost predicate FinerUnitIsRefined(a: nat, b: nat, p: nat, q: nat)
    requires p > 0 && q > 0
  {
    || p == q
    || (256 * p <= q && a / p < SIGN && b / q >= 0x8000)
    || (256 * q <= p && b / q < SIGN && a / p >= 0x8000)
  }

  /** Rounding down to multiples of p and of q keeps order when the finer unit's quotient is small. */
  lemma GridMonotone(a: nat, b: nat, p: nat, q: nat)
    requires a <= b && p > 0 && q > 0
    requires FinerUnitIsRefined(a, b, p, q)
    ensures a / p * p <= b / q * q
  {
    DivBounds(a, p);
    DivBounds(b, q);
    if p == q {
      DivMono(a, b, p);
      MulMono(a / p, b / p, p);
    } else if 256 * p <= q {
      MulMono(a / p + 1, SIGN, p);
      MulMono(0x8000, b / q, q);
    } else {
      MulMono(b / q + 1, SIGN, q);
      MulMono(0x8000, a / p, p);
    }
  }

  /** The round trip keeps the order of targets. */
  lemma CompactMonotone(a: nat, b: nat)
    requires a <= b && 2 * b < MODULUS
    ensures Compact(a) <= U32_MAX && Compact(b) <= U32_MAX
    ensures Decode(Compact(a)) <= Decode(Compact(b))
  {
    RoundTripTruncates(a);
    RoundTripTruncates(b);
    var i, j := Dropped(a), Dropped(b);
    FinerUnit(a, b);
    GridMonotone(a, b, Pow(i), Pow(j));
  }

  lemma FinerUnit(a: nat, b: nat)
    requires a <= b
    requires a >= SIGN ==> 0x8000 <= a / Pow(Dropped(a)) < SIGN
    requires b >= SIGN ==> 0x8000 <= b / Pow(Dropped(b)) < SIGN
    ensures var p, q := Pow(Dropped(a)), Pow(Dropped(b));
            FinerUnitIsRefined(a, b, p, q)
  {
    var i, j := Dropped(a), Dropped(b);
    assert a < SIGN ==> i == 0 && a / Pow(i) == a;
    if b >= SIGN {
      DroppedAtLeastOne(b);
    }
    if i < j {
      PowMono(i + 1, j);
    } else if j < i {
      PowMono(j + 1, i);
    }
  }

  lemma DroppedAtLeastOne(v: nat)
    requires v >= SIGN
    ensures Dropped(v) >= 1
  {
    LongNumber(v);
  }

  // ---------------------------------------------------------------- canonical encodings

  /** Size 1 to 32, sign bit clear, normalised mantissa, and no bits in the bytes the size drops. */
  ghost predicate Canonical(nbits: u32) {
    var size, word := SizeOf(nbits), WordOf(nbits);
    && 1 <= size <= 32
    && nbits % SIZE_UNIT < SIGN
    && 0x8000 <= word
    && (size < 3 ==> word % Pow(3 - size) == 0)
  }

  lemma CompactIsCanonical(v: nat)
    requires 0 < v && 2 * v < MODULUS
    ensures Compact(v) <= U32_MAX && Canonical(Compact(v))
  {
    CompactParts(v);
    LeadBounds(v);
    ByteLenBounds(v);
    SmallPowers();
    var size := ByteLen(v);
    if size < 3 && Lead(v) < SIGN {
      Multiple(v, Pow(3 - size));
    } else if size < 2 {
      assert Lead(v) / 256 == v * 0x100;
    }
  }

  lemma Multiple(v: nat, p: nat)
    requires p > 0
    ensures v * p % p == 0
  {
    MulMono(v, v + 1, p);
    QuotientRemainder(v * p, p, v, 0);
  }

  /** nBits stands for its low 23 bits, shifted by its size byte in bytes, less three; what falls off is dropped. */
  lemma DecodeExactly(nbits: u32)
    ensures Decode(nbits) == (nbits % 0x80_0000) * Pow(nbits / 0x100_0000) / 0x100_0000
  {
    var (word, size) := (nbits % 0x80_0000, nbits / 0x100_0000);
    SmallPowers();
    if size >= 3 {
      PowAdd(size - 3, 3);
      assert word * Pow(size) == (word * Pow(size - 3)) * 0x100_0000;
      DivUnique((word * Pow(size - 3)) * 0x100_0000, 0x100_0000, word * Pow(size - 3));
    } else {
      PowAdd(size, 3 - size);
      ShiftDown(word, Pow(size), Pow(3 - size));
    }
  }

  lemma ShiftDown(n: nat, p: nat, q: nat)
    requires p > 0 && q > 0
    ensures p * q > 0 && n * p / (p * q) == n / q
  {
    DivDiv(n * p, p, q);
    ExactDivision(n, p);
  }

  lemma ExactDivision(n: nat, p: nat)
    requires p > 0
    ensures n * p / p == n
  {
    DivUnique(n * p, p, n);
  }

  lemma DecodeBelowHalf(nbits: u32)
    requires SizeOf(nbits) <= 32
    ensures 2 * Decode(nbits) < MODULUS
  {
    var size, word := SizeOf(nbits), WordOf(nbits);
    ModulusIsPow();
    if size <= 3 {
      SmallPowers();
      PowMono(3, 32);
      QuotientShrinks(word, Pow(3 - size));
    } else {
      ProductBelowHalf(word, size - 3);
      PowMono(size, 32);
    }
  }

  lemma QuotientShrinks(n: nat, d: nat)
    requires d > 0
    ensures n / d <= n
  {
    var q := Quotient(n, d);
    DivBounds(n, d);
    MulMono(1, d, q);
  }

  lemma ProductBelowHalf(word: nat, k: nat)
    requires word < SIGN
    ensures 2 * (word * Pow(k)) < Pow(k + 3)
  {
    var p := Pow(k);
    NextPowers(k);
    MulMono(word, SIGN - 1, p);
  }

  lemma LeadOfLongProduct(word: nat, k: nat)
    requires 0x1_0000 <= word < SIGN
    ensures ByteLen(word * Pow(k)) == k + 3 && Lead(word * Pow(k)) == word
  {
    var p := Pow(k);
    NextPowers(k);
    MulMono(0x1_0000, word, p);
    MulMono(word, 0xFF_FFFF, p);
    ByteLenUnique(word * p, k + 3);
    LeadOfLong(word * p);
    ExactQuotient(word, k);
  }

  lemma LeadOfShortProduct(word: nat, k: nat)
    requires 0x8000 <= word < 0x1_0000
    ensures ByteLen(word * Pow(k)) == k + 2 && Lead(word * Pow(k)) == word * 256
  {
    var p := Pow(k);
    NextPowers(k);
    MulMono(0x100, word, p);
    MulMono(word, 0xFFFF, p);
    ByteLenUnique(word * p, k + 2);
    if k > 0 {
      LeadOfLong(word * p);
      assert word * p == (word * 256) * Pow(k - 1) by { Scale(word, Pow(k - 1)); }
      ExactQuotient(word * 256, k - 1);
    }
  }

  lemma CanonicalRoundTrip(nbits: u32)
    requires Canonical(nbits)
    ensures Compact(Decode(nbits)) == nbits
  {
    hide Compact;
    var size, word := SizeOf(nbits), WordOf(nbits);
    assert nbits == size * SIZE_UNIT + word;
    if size < 3 {
      ShortRoundTrip(word, size);
    } else {
      LongRoundTrip(word, size - 3);
    }
  }

  lemma LongRoundTrip(word: nat, k: nat)
    requires 0x8000 <= word < SIGN
    ensures Compact(word * Pow(k)) == (k + 3) * SIZE_UNIT + word
    ensures Expand(word, k + 3) == word * Pow(k)
  {
    if word >= 0x1_0000 {
      LeadOfLongProduct(word, k);
    } else {
      LeadOfShortProduct(word, k);
    }
  }

  lemma ShortRoundTrip(word: nat, size: nat)
    requires 1 <= size < 3 && 0x8000 <= word < SIGN && word % Pow(3 - size) == 0
    ensures Compact(Expand(word, size)) == size * SIZE_UNIT + word
  {
    var v := Expand(word, size);
    SmallPowers();
    ByteLenUnique(v, if v >= 0x100 then 2 else 1);
  }

  /** Expanding and compacting gives nbits back exactly for the canonical encodings and for zero. */
  lemma RoundTripIffCanonical(nbits: u32)
    requires SizeOf(nbits) <= 32
    ensures Compact(Decode(nbits)) == nbits <==> nbits == 0 || Canonical(nbits)
  {
    DecodeBelowHalf(nbits);
    var v := Decode(nbits);
    if Canonical(nbits) {
      CanonicalRoundTrip(nbits);
    } else if v > 0 {
      CompactIsCanonical(v);
    } else {
      CompactOfZero();
    }
    if nbits == 0 {
      DecodeOfZero(nbits);
      CompactOfZero();
    }
  }

  lemma CompactOfZero()
    ensures Compact(0) == 0
  {}

  lemma DecodeOfZero(nbits: u32)
    requires nbits == 0
    ensures Decode(nbits) == 0
  {}

  // ---------------------------------------------------------------- difficulty

  /** With only three bytes set, a number is its lead shifted back. */
  lemma ThreeBytesLead(t: nat, word: nat, k: nat)
    requires t >= 0x1_0000 && word < SIZE_UNIT && t == word * Pow(k)
    ensures ByteLen(t) >= 3 && t == Lead(t) * Pow(ByteLen(t) - 3)
  {
    hide Lead, ByteLen;
    ThreeByteNumber(t);
    var shift := ByteLen(t) - 3;
    NextPowers(k);
    MulMono(word, 0xFF_FFFF, Pow(k));
    ByteLenAtMost(t, k + 3);
    PowAdd(k - shift, shift);
    var lead := word * Pow(k - shift);
    assert t == lead * Pow(shift);
    ExactQuotient(lead, shift);
    LeadOfLong(t);
  }

  /** Dividing by the three leading bytes and shifting is exact when no other byte is set. */
  lemma DifficultyOfThreeBytes(t: nat, word: nat, k: nat)
    requires t >= 0x1_0000 && word < SIZE_UNIT && t == word * Pow(k)
    ensures Difficulty(t) == Ok(MaxTarget() / t)
  {
    ThreeBytesLead(t, word, k);
    ThreeByteNumber(t);
    DivDiv(MaxTarget(), Lead(t), Pow(ByteLen(t) - 3));
  }

  lemma LeadOfLong(t: nat)
    requires ByteLen(t) >= 3
    ensures Lead(t) == t / Pow(ByteLen(t) - 3)
  {
    SmallPowers();
    assert t / 1 == t;
  }

  /** Every decoded target of at least 2^16: get_difficulty returns floor(MAX_DIFFICULTY / target). */
  lemma DifficultyOfDecoded(nbits: u32)
    requires SizeOf(nbits) <= 32
    ensures Decode(nbits) >= 0x1_0000 ==> Difficulty(Decode(nbits)) == Ok(MaxTarget() / Decode(nbits))
    ensures Decode(nbits) < 0x1_0000 ==> Difficulty(Decode(nbits)) == Err(Panic)
  {
    var size, word := SizeOf(nbits), WordOf(nbits);
    if Decode(nbits) >= 0x1_0000 {
      if size <= 3 {
        var p := Pow(3 - size);
        DivBounds(word, p);
        MulMono(1, p, word / p);
        DifficultyOfThreeBytes(Decode(nbits), Decode(nbits), 0);
      } else {
        DifficultyOfThreeBytes(Decode(nbits), word, size - 3);
      }
    }
  }

  /** Each block's work is below 2^208, and at least 1 for targets up to the maximum. */
  lemma WorkBounds(t: nat)
    requires t >= 0x1_0000
    ensures Quotient(MaxTarget(), t) < WORK_LIMIT
    ensures t <= MaxTarget() ==> Quotient(MaxTarget(), t) >= 1
  {
    MaxTargetValue();
    QuotientBelow(MaxTarget(), t, WORK_LIMIT);
  }

  lemma QuotientBelow(n: nat, d: nat, p: nat)
    requires d >= 0x1_0000 && n < 0x1_0000 * p
    ensures 0 <= n / d < p
    ensures d <= n ==> n / d >= 1
  {
    var q := Quotient(n, d);
    DivBounds(n, d);
    if q >= p {
      MulMono(p, q, d);
      MulMono(0x1_0000, d, p);
    }
  }

  // ---------------------------------------------------------------- retargeting

  /** Up to the maximum target, scaling never truncates. */
  lemma ScaledExactly(t: nat, span: nat)
    requires t <= MaxTarget()
    ensures Scaled(t, span) == Quotient(Product(t, Clamp(span)), TARGET_TIMESPAN)
  {
    hide MaxTarget, Clamp, Product, Quotient;
    SmallTargetFits(t, Clamp(span));
  }

  lemma SmallTargetFits(t: nat, c: nat)
    requires t <= MaxTarget() && c <= TARGET_TIMESPAN_MUL_4
    ensures Wrap(Product(t, c)) == Product(t, c)
  {
    hide MaxTarget;
    MaxTargetValue();
    MulMono(t, 0xFFFF * WORK_LIMIT, c);
    MulMono(c, TARGET_TIMESPAN_MUL_4, 0xFFFF * WORK_LIMIT);
  }

  /** compute_new_nbits multiplies by the measured span, cut off at a quarter and at four times two weeks, and
      divides by two weeks; above the unrounded maximum it asks for the maximum target. */
  lemma RetargetExactly(prevTime: u32, startTime: u32, t: nat)
    requires t <= MaxTarget()
    ensures prevTime < startTime ==> NewNbits(prevTime, startTime, t) == Err(Panic)
    ensures prevTime >= startTime ==>
              var span := prevTime - startTime;
              var scaled := if span < 302400 then Product(t, 302400) / 1209600
                            else if span <= 4838400 then Product(t, span) / 1209600
                            else Product(t, 4838400) / 1209600;
              NewNbits(prevTime, startTime, t)
              == Ok(if scaled < 0x1_0000 * WORK_LIMIT then Compact(scaled) else 0x1D00_FFFF)
  {
    hide Compact, UnroundedMaxTarget;
    if prevTime >= startTime {
      ScaledExactly(t, prevTime - startTime);
      CompactOfMin(Scaled(t, prevTime - startTime));
    }
  }

  /** The cap, as nBits. */
  lemma CompactOfMin(t: nat)
    ensures Compact(Min(t, UnroundedMaxTarget())) == if t < 0x1_0000 * WORK_LIMIT then Compact(t) else 0x1D00_FFFF
  {
    hide Compact;
    UnroundedRoundsToMax();
    UnroundedMaxTargetValue();
  }

  const MAX_TARGET_NBITS: u32 := 0x1D00_FFFF

  /** The unrounded maximum compacts exactly onto the maximum target. */
  lemma UnroundedRoundsToMax()
    ensures Compact(UnroundedMaxTarget()) == MAX_TARGET_NBITS
    ensures Decode(MAX_TARGET_NBITS) == MaxTarget()
  {
    hide Lead, ByteLen, Pow, UnroundedMaxTarget, MaxTarget;
    UnroundedMaxTargetIsPow();
    AllOnesLead(25);
    assert Expand(0xFFFF, 29) == MaxTarget() by {
      MaxTargetIsPow();
    }
  }

  lemma AllOnesLead(k: nat)
    ensures ByteLen(Pow(k + 3) - 1) == k + 3 && Lead(Pow(k + 3) - 1) == 0xFF_FFFF
  {
    NextPowers(k);
    ByteLenUnique(Pow(k + 3) - 1, k + 3);
    TopQuotient(3, k);
    LeadOfLong(Pow(k + 3) - 1);
    SmallPowers();
  }

  lemma TopQuotient(m: nat, k: nat)
    ensures (Pow(m + k) - 1) / Pow(k) == Pow(m) - 1
  {
    PowAdd(m, k);
    assert (Pow(m) - 1) * Pow(k) == Pow(m + k) - Pow(k);
    DivUnique(Pow(m + k) - 1, Pow(k), Pow(m) - 1);
  }

  /** A retarget never yields a target above the maximum. */
  lemma RetargetKeepsFloor(prevTime: u32, startTime: u32, t: nat)
    requires prevTime >= startTime
    ensures var n := NewNbits(prevTime, startTime, t);
            n.Ok? && n.value <= U32_MAX && SizeOf(n.value) <= 32 && Decode(n.value) <= MaxTarget()
  {
    var x := Min(Scaled(t, prevTime - startTime), UnroundedMaxTarget());
    UnroundedRoundsToMax();
    UnroundedMaxTargetValue();
    CompactMonotone(x, UnroundedMaxTarget());
    CompactParts(x);
  }
}
