/** The two capacity roundings (src/comm/struct/set.c): the shifts on 64-bit words compute the
    next and the largest fitting power of two. */
module PowersOfTwo {

  // ---------------------------------------------------------------- powers of two

  function Pow2(k: nat): (p: nat)
    ensures p >= 1
  {
    if k == 0 then 1 else 2 * Pow2(k - 1)
  }

  /** The smallest power of two from `p` on that is at least `n`. */
  function PowerFrom(p: nat, n: nat): (r: nat)
    requires p > 0
    ensures r >= n && r >= p && (r > p ==> r < 2 * n)
    decreases n - p
  {
    if p >= n then p else PowerFrom(2 * p, n)
  }

  /** The capacity `set_next_power_of_two` is named after. */
  function NextPowerOfTwo(n: nat): (r: nat)
    ensures r >= n && r >= 1 && (n > 1 ==> r < 2 * n)
  {
    PowerFrom(1, n)
  }

  /** The capacity `floor_power_of_two` is named after. */
  function FloorPowerOfTwo(n: nat): (r: nat)
    ensures r <= n && (n > 0 ==> n < 2 * r)
  {
    if n < 2 then n else 2 * FloorPowerOfTwo(n / 2)
  }

  lemma {:induction false} PowerFromIs(j: nat, n: nat) returns (k: nat)
    ensures PowerFrom(Pow2(j), n) == Pow2(k)
    decreases n - Pow2(j)
  {
    if Pow2(j) >= n {
      k := j;
    } else {
      k := PowerFromIs(j + 1, n);
    }
  }

  lemma {:induction false} FloorIs(n: nat) returns (k: nat)
    requires n > 0
    ensures FloorPowerOfTwo(n) == Pow2(k)
  {
    if n < 2 {
      k := 0;
    } else {
      var j := FloorIs(n / 2);
      k := j + 1;
    }
  }

  lemma {:induction false} Pow2Apart(j: nat, k: nat)
    requires j < k
    ensures 2 * Pow2(j) <= Pow2(k)
    decreases k
  {
    if j < k - 1 {
      Pow2Apart(j, k - 1);
    }
  }

  /** Between a number and its double there is one power of two. */
  lemma PowerBetween(j: nat, k: nat, n: nat)
    requires n <= Pow2(j) < 2 * n && n <= Pow2(k) < 2 * n
    ensures j == k
  {
    if j < k {
      Pow2Apart(j, k);
    } else if k < j {
      Pow2Apart(k, j);
    }
  }

  /** The next power of two is one, and the smallest that is enough. */
  lemma NextIsPower(n: nat) returns (k: nat)
    ensures NextPowerOfTwo(n) == Pow2(k)
    ensures forall j: nat :: Pow2(j) >= n ==> Pow2(j) >= NextPowerOfTwo(n)
  {
    hide PowerFrom;
    assert Pow2(0) == 1;
    k := PowerFromIs(0, n);
    NextBounds(n);
    forall j: nat | Pow2(j) >= n ensures Pow2(j) >= NextPowerOfTwo(n) {
      if j < k {
        Pow2Apart(j, k);
      } else if k < j {
        Pow2Apart(k, j);
      }
    }
  }

  lemma NextBounds(n: nat)
    ensures n <= NextPowerOfTwo(n) == PowerFrom(1, n) && (n > 1 ==> NextPowerOfTwo(n) < 2 * n)
    ensures n <= 1 ==> NextPowerOfTwo(n) == 1
  {
  }

  /** A power of two is kept by the rounding down. */
  lemma {:induction false} FloorOfPower(k: nat)
    ensures FloorPowerOfTwo(Pow2(k)) == Pow2(k)
  {
    if k > 0 {
      FloorOfPower(k - 1);
      assert Pow2(k) / 2 == Pow2(k - 1);
    }
  }

  /** A capacity rounded up is kept by the rounding down of the set. */
  lemma FloorKeepsNext(n: nat)
    ensures FloorPowerOfTwo(NextPowerOfTwo(n)) == NextPowerOfTwo(n)
  {
    var k := NextIsPower(n);
    FloorOfPower(k);
  }

  // ---------------------------------------------------------------- the shifts

  /** Every bit below the highest one is set. */
  function Smear(n: bv64): bv64 {
    var a := n | (n >> 1);
    var b := a | (a >> 2);
    var c := b | (b >> 4);
    var d := c | (c >> 8);
    var e := d | (d >> 16);
    e | (e >> 32)
  }

  function Above(n: bv64): bv64 { n + 1 }

  function Below(n: bv64): bv64 { n - 1 }

  /** `set_next_power_of_two`. */
  function NextPower(capacity: bv64): bv64 {
    if capacity == 0 then 1 else Above(Smear(Below(capacity)))
  }

  /** `floor_power_of_two`. */
  function FloorPower(n: bv64): bv64 {
    if n == 0 then 0 else Smear(n) - (Smear(n) >> 1)
  }

  /** Exactly one bit is set. */
  predicate IsPower(p: bv64) { p != 0 && p & (p - 1) == 0 }

  /** `m` is the smallest number with all its low bits set that is at least `c`. */
  predicate Covers(m: bv64, c: bv64) {
    m & (m >> 1) == m >> 1 && c <= m && if c == 0 then m == 0 else m >> 1 < c
  }

  /** The number fits into the lower half of the words. */
  predicate InHalf(n: bv64) { n <= 0x8000_0000_0000_0000 }

  lemma SmearMask(n: bv64)
    ensures Smear(n) & (Smear(n) >> 1) == Smear(n) >> 1
  {
  }

  lemma SmearAbove(n: bv64)
    ensures n <= Smear(n)
  {
  }

  lemma SmearTight(n: bv64)
    ensures n != 0 ==> Smear(n) >> 1 < n
  {
  }

  lemma SmearCovers(n: bv64)
    ensures Covers(Smear(n), n)
  {
    hide Smear;
    SmearMask(n);
    SmearAbove(n);
    SmearTight(n);
    SmearZero();
  }

  lemma SmearZero()
    ensures Smear(0) == 0
  {
  }

  lemma MaskNext(m: bv64)
    requires m & (m >> 1) == m >> 1
    ensures m & (m + 1) == 0
  {
  }

  lemma MaskPower(m: bv64)
    requires m & (m + 1) == 0 && m + 1 != 0
    ensures IsPower(m + 1)
  {
  }

  /** One more than a covering mask is a power of two, unless it wraps. */
  lemma AbovePower(m: bv64, c: bv64)
    requires Covers(m, c) && Above(m) != 0
    ensures IsPower(Above(m))
  {
    MaskNext(m);
    MaskPower(m);
  }

  lemma AboveWraps(m: bv64, n: bv64)
    requires Covers(m, Below(n)) && n != 0
    ensures Above(m) != 0 <==> InHalf(n)
  {
  }

  lemma BelowAbove(m: bv64)
    ensures Below(Above(m)) == m
  {
  }

  /** The rounding up gives the smallest power of two that is enough: the mask below it is
      the smallest that covers the number below. It wraps to 0 exactly when there is none. */
  lemma NextPowerExact(n: bv64)
    ensures NextPower(n) != 0 <==> InHalf(n)
    ensures NextPower(n) != 0 ==> IsPower(NextPower(n))
    ensures n != 0 ==> Covers(Below(NextPower(n)), Below(n))
  {
    hide *;
    NextForms(n);
    if n == 0 {
      OneIsPower();
    } else {
      var m := Smear(Below(n));
      SmearCovers(Below(n));
      AboveWraps(m, n);
      BelowAbove(m);
      if Above(m) != 0 {
        AbovePower(m, Below(n));
      }
    }
  }

  lemma NextForms(n: bv64)
    ensures n == 0 ==> NextPower(n) == 1
    ensures n != 0 ==> NextPower(n) == Above(Smear(Below(n)))
  {
    hide Smear;
    hide Above;
    hide Below;
  }

  lemma OneIsPower()
    ensures IsPower(1) && InHalf(0)
  {
  }

  /** The masked hash is a slot of the table; `KeySet` holds for any choice of slot. */
  lemma MaskedHashFits(hash: bv64, capacity: bv64)
    requires IsPower(capacity)
    ensures hash & (capacity - 1) < capacity
  {
    MaskBelow(hash, capacity - 1);
    OneLess(capacity);
  }

  lemma MaskBelow(h: bv64, m: bv64)
    ensures h & m <= m
  {
  }

  lemma OneLess(p: bv64)
    requires p != 0
    ensures p - 1 < p
  {
  }

  // ---------------------------------------------------------------- the shifts as numbers

  function Half(b: bv64): bv64 { b >> 1 }

  function Bit(b: bv64): nat { if b & 1 == 1 then 1 else 0 }

  /** The number the lowest `k` bits stand for. */
  function Bits(b: bv64, k: nat): nat {
    if k == 0 then 0 else 2 * Bits(Half(b), k - 1) + Bit(b)
  }

  function Value(b: bv64): nat { Bits(b, 64) }

  /** Nothing is left of the word after `k` bits. */
  predicate Fits(b: bv64, k: nat) {
    if k == 0 then b == 0 else Fits(Half(b), k - 1)
  }

  function Octet(b: bv64): bv64 { b >> 8 }

  lemma FitsOctet(b: bv64, k: nat)
    requires Fits(Octet(b), k)
    ensures Fits(b, k + 8)
  {
    hide Half;
    hide Octet;
    var b1 := Half(b);
    var b2 := Half(b1);
    var b3 := Half(b2);
    var b4 := Half(b3);
    var b5 := Half(b4);
    var b6 := Half(b5);
    var b7 := Half(b6);
    EightHalves(b);
    assert Fits(b7, k + 1);
    assert Fits(b6, k + 2);
    assert Fits(b5, k + 3);
    assert Fits(b4, k + 4);
    assert Fits(b3, k + 5);
    assert Fits(b2, k + 6);
    assert Fits(b1, k + 7);
  }

  lemma EightHalves(b: bv64)
    ensures Half(Half(Half(Half(Half(Half(Half(Half(b)))))))) == Octet(b)
  {
  }

  lemma AllFit(b: bv64)
    ensures Fits(b, 64)
  {
    hide Octet;
    hide Fits;
    var b1 := Octet(b);
    var b2 := Octet(b1);
    var b3 := Octet(b2);
    var b4 := Octet(b3);
    var b5 := Octet(b4);
    var b6 := Octet(b5);
    var b7 := Octet(b6);
    NoneLeft(b);
    NothingFits();
    FitsOctet(b7, 0);
    FitsOctet(b6, 8);
    FitsOctet(b5, 16);
    FitsOctet(b4, 24);
    FitsOctet(b3, 32);
    FitsOctet(b2, 40);
    FitsOctet(b1, 48);
    FitsOctet(b, 56);
  }

  lemma NothingFits()
    ensures Fits(0, 0)
  {
  }

  lemma NoneLeft(b: bv64)
    ensures Octet(Octet(Octet(Octet(Octet(Octet(Octet(Octet(b)))))))) == 0
  {
  }

  lemma BelowHalf(b: bv64)
    requires b != 0
    ensures if Bit(b) == 1 then Bit(Below(b)) == 0 && Half(Below(b)) == Half(b)
            else Bit(b) == 0 && Bit(Below(b)) == 1 && Half(b) != 0 && Half(Below(b)) == Below(Half(b))
  {
  }

  lemma {:induction false} BelowValue(b: bv64, k: nat)
    requires b != 0 && Fits(b, k)
    ensures Bits(Below(b), k) + 1 == Bits(b, k)
    decreases k
  {
    hide Half;
    hide Bit;
    hide Below;
    BelowHalf(b);
    if Bit(b) != 1 {
      BelowValue(Half(b), k - 1);
    }
  }

  /** From some bit down all are set. */
  predicate IsMask(m: bv64) { m & (m >> 1) == m >> 1 }

  /** The highest bit of a mask. */
  function Top(m: bv64): bv64 { m & !(m >> 1) }

  lemma MaskHalf(m: bv64)
    requires IsMask(m) && m != 0
    ensures Bit(m) == 1 && IsMask(Half(m))
    ensures Half(m) == 0 ==> m == 1 && Top(m) == 1
    ensures Half(m) != 0 ==> Bit(Top(m)) == 0 && Half(Top(m)) == Top(Half(m))
  {
  }

  lemma {:induction false} NoBits(k: nat)
    ensures Bits(0, k) == 0
  {
    hide Half;
    hide Bit;
    HalfZero();
    if k > 0 {
      NoBits(k - 1);
    }
  }

  lemma HalfZero()
    ensures Half(0) == 0 && Bit(0) == 0 && Half(1) == 0 && Bit(1) == 1
  {
  }

  lemma OneBit(k: nat)
    requires k > 0
    ensures Bits(1, k) == 1
  {
    hide Half;
    hide Bit;
    HalfZero();
    NoBits(k - 1);
  }

  lemma SmearHalf(n: bv64)
    ensures Half(Smear(n)) == Smear(Half(n))
  {
  }

  lemma SmearBit(n: bv64)
    requires n != 0
    ensures Bit(Smear(n)) == 1 && Smear(n) != 0
  {
  }

  lemma HalfNone(n: bv64)
    requires n != 0 && Half(n) == 0
    ensures n == 1
  {
  }

  lemma SmearOne()
    ensures Smear(1) == 1 && Top(1) == 1
  {
  }

  lemma SmearIsMask(n: bv64)
    ensures IsMask(Smear(n))
  {
    hide Smear;
    SmearMask(n);
  }

  /** A smeared number lies below the next power of two, and its highest bit is the largest
      power of two that fits. */
  lemma {:induction false} SmearValue(n: bv64, k: nat) returns (j: nat)
    requires n != 0 && Fits(n, k)
    ensures Pow2(j) <= Bits(n, k) < 2 * Pow2(j)
    ensures Bits(Smear(n), k) + 1 == 2 * Pow2(j) && Bits(Top(Smear(n)), k) == Pow2(j)
    decreases k
  {
    hide Smear;
    hide IsMask;
    hide Half;
    hide Bit;
    hide Top;
    if Half(n) == 0 {
      HalfNone(n);
      SmearOne();
      OneBit(k);
      j := 0;
    } else {
      var m := Smear(n);
      SmearHalf(n);
      SmearBit(n);
      SmearBit(Half(n));
      SmearIsMask(n);
      MaskHalf(m);
      BitBound(n);
      var i := SmearValue(Half(n), k - 1);
      j := i + 1;
    }
  }

  lemma BitBound(b: bv64)
    ensures Bit(b) <= 1
  {
  }

  /** The shifts compute the next power of two, unless they wrap. */
  lemma NextPowerIs(n: bv64)
    requires NextPower(n) != 0
    ensures Value(NextPower(n)) == NextPowerOfTwo(Value(n))
  {
    hide *;
    NextForms(n);
    ValueForms(n);
    if n == 0 {
      OneBit(64);
      ValueForms(1);
      NoBits(64);
      NextBounds(0);
    } else {
      var m := Smear(Below(n));
      var x := Above(m);
      BelowAbove(m);
      AllFit(x);
      BelowValue(x, 64);
      AllFit(n);
      BelowValue(n, 64);
      ValueForms(x);
      ValueForms(m);
      ValueForms(Below(n));
      if Below(n) == 0 {
        SmearZero();
        NoBits(64);
        NextBounds(1);
      } else {
        AllFit(Below(n));
        var j := SmearValue(Below(n), 64);
        var k := NextIsPower(Value(n));
        NextBounds(Value(n));
        Doubled(j);
        PowerBetween(j + 1, k, Value(n));
      }
    }
  }

  lemma ValueForms(b: bv64)
    ensures Value(b) == Bits(b, 64)
  {
    hide Bits;
  }

  lemma Doubled(j: nat)
    ensures Pow2(j + 1) == 2 * Pow2(j) && Pow2(j) >= 1
  {
  }

  /** The shifts compute the largest power of two that fits. */
  lemma FloorPowerIs(n: bv64)
    ensures Value(FloorPower(n)) == FloorPowerOfTwo(Value(n))
  {
    hide *;
    FloorForms(n);
    ValueForms(n);
    ValueForms(FloorPower(n));
    FloorBounds(Value(n));
    if n == 0 {
      NoBits(64);
    } else {
      AllFit(n);
      var j := SmearValue(n, 64);
      Doubled(j);
      var k := FloorIs(Value(n));
      FloorBetween(j, k, Value(n));
    }
  }

  lemma FloorBetween(j: nat, k: nat, n: nat)
    requires Pow2(j) <= n < 2 * Pow2(j) && Pow2(k) <= n < 2 * Pow2(k)
    ensures j == k
  {
    if j < k {
      Pow2Apart(j, k);
    } else if k < j {
      Pow2Apart(k, j);
    }
  }

  lemma FloorForms(n: bv64)
    ensures FloorPower(n) == if n == 0 then 0 else Top(Smear(n))
  {
    hide Smear;
    hide Top;
    SmearIsMask(n);
    MaskTop(Smear(n));
  }

  lemma MaskTop(m: bv64)
    requires IsMask(m)
    ensures m - (m >> 1) == Top(m)
  {
  }

  lemma FloorBounds(n: nat)
    ensures FloorPowerOfTwo(n) <= n && (n > 0 ==> n < 2 * FloorPowerOfTwo(n))
  {
  }
}
