/** Machine words as coefficients, their bits named by masks. */
module Words {
  import opened Gf2

  // bytes

  function Mask8(i: nat): (k: bv8)
    requires i < 8
    ensures k != 0 && k & (k - 1) == 0
  {
    [1, 2, 4, 8, 0x10, 0x20, 0x40, 0x80][i]
  }

  lemma MaskUp8(i: nat)
    requires i < 8
    ensures if i < 7 then Mask8(i + 1) == Mask8(i) << 1 && Mask8(i) & 0x80 == 0 else Mask8(i) << 1 == 0
  {
  }

  predicate Bit8(c: bv8, k: bv8) {
    c & k != 0
  }

  lemma XorBit8(a: bv8, b: bv8, k: bv8)
    requires k != 0 && k & (k - 1) == 0
    ensures Bit8(a ^ b, k) <==> Bit8(a, k) != Bit8(b, k)
  {
  }

  lemma BitRight8(c: bv8, k: bv8)
    ensures Bit8(c >> 1, k) <==> Bit8(c, k << 1)
  {
  }

  /** The lowest bit first. */
  function Lsb8(c: bv8): (s: Bits)
    ensures |s| == 8
  {
    seq(8, i requires 0 <= i < 8 => Bit8(c, Mask8(i)))
  }

  lemma LsbXor8(a: bv8, b: bv8)
    ensures Lsb8(a ^ b) == Xor(Lsb8(a), Lsb8(b))
  {
    forall i | 0 <= i < 8 ensures Lsb8(a ^ b)[i] == (Lsb8(a)[i] != Lsb8(b)[i]) {
      XorBit8(a, b, Mask8(i));
    }
  }

  lemma LsbShift8(c: bv8)
    ensures Lsb8(c >> 1) == Shift(Lsb8(c))
  {
    forall i | 0 <= i < 8 ensures Lsb8(c >> 1)[i] == Shift(Lsb8(c))[i] {
      BitRight8(c, Mask8(i));
      MaskUp8(i);
    }
  }

  lemma BitLeft8(c: bv8, k: bv8)
    ensures k & 0x80 == 0 ==> (Bit8(c << 1, k << 1) <==> Bit8(c, k))
    ensures !Bit8(c << 1, 1)
  {
  }

  /** The highest bit first. */
  function Msb8(c: bv8): (s: Bits)
    ensures |s| == 8
  {
    seq(8, i requires 0 <= i < 8 => Bit8(c, Mask8(7 - i)))
  }

  lemma MsbXor8(a: bv8, b: bv8)
    ensures Msb8(a ^ b) == Xor(Msb8(a), Msb8(b))
  {
    forall i | 0 <= i < 8 ensures Msb8(a ^ b)[i] == (Msb8(a)[i] != Msb8(b)[i]) {
      XorBit8(a, b, Mask8(7 - i));
    }
  }

  lemma BitBelow8(c: bv8, i: nat)
    requires i < 8
    ensures Bit8(c << 1, Mask8(i)) <==> i > 0 && Bit8(c, Mask8(i - 1))
  {
    if i > 0 {
      BitLeft8(c, Mask8(i - 1));
      MaskUp8(i - 1);
    } else {
      BitLeft8(c, 1);
    }
  }

  lemma MsbShift8(c: bv8)
    ensures Msb8(c << 1) == Shift(Msb8(c))
  {
    forall i | 0 <= i < 8 ensures Msb8(c << 1)[i] == Shift(Msb8(c))[i] {
      BitBelow8(c, 7 - i);
    }
  }

  lemma NoBits8(c: bv8)
    requires forall i :: 0 <= i < 8 ==> !Bit8(c, Mask8(i))
    ensures c == 0
  {
    assert Mask8(0) == 1 && Mask8(1) == 2 && Mask8(2) == 4 && Mask8(3) == 8 && Mask8(4) == 0x10 &&
           Mask8(5) == 0x20 && Mask8(6) == 0x40 && Mask8(7) == 0x80;
    assert c & 1 == 0 && c & 2 == 0 && c & 4 == 0 && c & 8 == 0 && c & 0x10 == 0 &&
           c & 0x20 == 0 && c & 0x40 == 0 && c & 0x80 == 0;
  }

  lemma LsbInjective8(a: bv8, b: bv8)
    requires Lsb8(a) == Lsb8(b)
    ensures a == b
  {
    forall i | 0 <= i < 8 ensures !Bit8(a ^ b, Mask8(i)) {
      XorBit8(a, b, Mask8(i));
      assert Lsb8(a)[i] == Lsb8(b)[i];
    }
    NoBits8(a ^ b);
    assert a == b;
  }

  lemma MsbInjective8(a: bv8, b: bv8)
    requires Msb8(a) == Msb8(b)
    ensures a == b
  {
    Mirror8(a);
    Mirror8(b);
    LsbInjective8(a, b);
  }

  function Mirror(s: Bits): (m: Bits)
    ensures |m| == |s|
  {
    seq(|s|, i requires 0 <= i < |s| => s[|s| - 1 - i])
  }

  lemma Mirror8(c: bv8)
    ensures Lsb8(c) == Mirror(Msb8(c))
  {
  }

  /** Shifted by i, the lowest bit is bit i. */
  lemma ShiftedBy(b: bv8, i: nat)
    requires i < 8
    ensures Bit8(b >> i, 1) <==> Bit8(b, Mask8(i))
  {
    if i == 0 {} else if i == 1 {} else if i == 2 {} else if i == 3 {}
    else if i == 4 {} else if i == 5 {} else if i == 6 {} else {}
  }

  // CAN's fifteen bits

  function Mask15(i: nat): (k: bv15)
    requires i < 15
    ensures k != 0 && k & (k - 1) == 0
  {
    [1, 2, 4, 8, 0x10, 0x20, 0x40, 0x80, 0x100, 0x200, 0x400, 0x800, 0x1000, 0x2000, 0x4000][i]
  }

  lemma MaskUp15(i: nat)
    requires i < 15
    ensures if i < 14 then Mask15(i + 1) == Mask15(i) << 1 && Mask15(i) & 0x4000 == 0 else Mask15(i) << 1 == 0
  {
  }

  predicate Bit15(c: bv15, k: bv15) {
    c & k != 0
  }

  lemma XorBit15(a: bv15, b: bv15, k: bv15)
    requires k != 0 && k & (k - 1) == 0
    ensures Bit15(a ^ b, k) <==> Bit15(a, k) != Bit15(b, k)
  {
  }

  lemma BitLeft15(c: bv15, k: bv15)
    ensures k & 0x4000 == 0 ==> (Bit15(c << 1, k << 1) <==> Bit15(c, k))
    ensures !Bit15(c << 1, 1)
  {
  }

  /** The highest bit first. */
  function Msb15(c: bv15): (s: Bits)
    ensures |s| == 15
  {
    seq(15, i requires 0 <= i < 15 => Bit15(c, Mask15(14 - i)))
  }

  lemma MsbXor15(a: bv15, b: bv15)
    ensures Msb15(a ^ b) == Xor(Msb15(a), Msb15(b))
  {
    forall i | 0 <= i < 15 ensures Msb15(a ^ b)[i] == (Msb15(a)[i] != Msb15(b)[i]) {
      XorBit15(a, b, Mask15(14 - i));
    }
  }

  lemma BitBelow15(c: bv15, i: nat)
    requires i < 15
    ensures Bit15(c << 1, Mask15(i)) <==> i > 0 && Bit15(c, Mask15(i - 1))
  {
    if i > 0 {
      BitLeft15(c, Mask15(i - 1));
      MaskUp15(i - 1);
    } else {
      BitLeft15(c, 1);
    }
  }

  lemma MsbShift15(c: bv15)
    ensures Msb15(c << 1) == Shift(Msb15(c))
  {
    forall i | 0 <= i < 15 ensures Msb15(c << 1)[i] == Shift(Msb15(c))[i] {
      BitBelow15(c, 14 - i);
    }
  }

  // sixteen bits

  function Mask16(i: nat): (k: bv16)
    requires i < 16
    ensures k != 0 && k & (k - 1) == 0
  {
    [1, 2, 4, 8, 0x10, 0x20, 0x40, 0x80, 0x100, 0x200, 0x400, 0x800, 0x1000, 0x2000, 0x4000, 0x8000][i]
  }

  lemma MaskUp16(i: nat)
    requires i < 16
    ensures if i < 15 then Mask16(i + 1) == Mask16(i) << 1 && Mask16(i) & 0x8000 == 0 else Mask16(i) << 1 == 0
  {
  }

  predicate Bit16(c: bv16, k: bv16) {
    c & k != 0
  }

  lemma XorBit16(a: bv16, b: bv16, k: bv16)
    requires k != 0 && k & (k - 1) == 0
    ensures Bit16(a ^ b, k) <==> Bit16(a, k) != Bit16(b, k)
  {
  }

  lemma BitRight16(c: bv16, k: bv16)
    ensures Bit16(c >> 1, k) <==> Bit16(c, k << 1)
  {
  }

  /** The lowest bit first. */
  function Lsb16(c: bv16): (s: Bits)
    ensures |s| == 16
  {
    seq(16, i requires 0 <= i < 16 => Bit16(c, Mask16(i)))
  }

  lemma LsbXor16(a: bv16, b: bv16)
    ensures Lsb16(a ^ b) == Xor(Lsb16(a), Lsb16(b))
  {
    forall i | 0 <= i < 16 ensures Lsb16(a ^ b)[i] == (Lsb16(a)[i] != Lsb16(b)[i]) {
      XorBit16(a, b, Mask16(i));
    }
  }

  lemma LsbShift16(c: bv16)
    ensures Lsb16(c >> 1) == Shift(Lsb16(c))
  {
    forall i | 0 <= i < 16 ensures Lsb16(c >> 1)[i] == Shift(Lsb16(c))[i] {
      BitRight16(c, Mask16(i));
      MaskUp16(i);
    }
  }

  lemma NoBits16(c: bv16)
    requires forall i :: 0 <= i < 16 ==> !Bit16(c, Mask16(i))
    ensures c == 0
  {
    assert Mask16(0) == 1 && Mask16(1) == 2 && Mask16(2) == 4 && Mask16(3) == 8 && Mask16(4) == 0x10 &&
           Mask16(5) == 0x20 && Mask16(6) == 0x40 && Mask16(7) == 0x80 && Mask16(8) == 0x100 && Mask16(9) == 0x200 &&
           Mask16(10) == 0x400 && Mask16(11) == 0x800 && Mask16(12) == 0x1000 && Mask16(13) == 0x2000
             && Mask16(14) == 0x4000 &&
           Mask16(15) == 0x8000;
    assert c & 1 == 0 && c & 2 == 0 && c & 4 == 0 && c & 8 == 0 && c & 0x10 == 0 &&
           c & 0x20 == 0 && c & 0x40 == 0 && c & 0x80 == 0 && c & 0x100 == 0 && c & 0x200 == 0 &&
           c & 0x400 == 0 && c & 0x800 == 0 && c & 0x1000 == 0 && c & 0x2000 == 0 && c & 0x4000 == 0 &&
           c & 0x8000 == 0;
  }

  lemma LsbInjective16(a: bv16, b: bv16)
    requires Lsb16(a) == Lsb16(b)
    ensures a == b
  {
    forall i | 0 <= i < 16 ensures !Bit16(a ^ b, Mask16(i)) {
      XorBit16(a, b, Mask16(i));
      assert Lsb16(a)[i] == Lsb16(b)[i];
    }
    NoBits16(a ^ b);
    assert a == b;
  }

  /** Two bytes as one word, the low one first as it is sent. */
  function Joined16(low: bv8, high: bv8): bv16 {
    (high as bv16 << 8) | low as bv16
  }

  lemma JoinedLow(low: bv8, high: bv8, k: bv8)
    ensures Bit16(Joined16(low, high), k as bv16) <==> Bit8(low, k)
  {
  }

  lemma JoinedHigh(low: bv8, high: bv8, k: bv8)
    ensures Bit16(Joined16(low, high), k as bv16 << 8) <==> Bit8(high, k)
  {
  }

  lemma MaskOfByte(i: nat)
    requires i < 8
    ensures Mask16(i) == Mask8(i) as bv16 && Mask16(i + 8) == Mask8(i) as bv16 << 8
  {
  }

  lemma JoinedBits(low: bv8, high: bv8)
    ensures Lsb16(Joined16(low, high)) == Lsb8(low) + Lsb8(high)
  {
    forall i | 0 <= i < 16 ensures Lsb16(Joined16(low, high))[i] == (Lsb8(low) + Lsb8(high))[i] {
      if i < 8 {
        MaskOfByte(i);
        JoinedLow(low, high, Mask8(i));
      } else {
        MaskOfByte(i - 8);
        JoinedHigh(low, high, Mask8(i - 8));
      }
    }
  }
}
