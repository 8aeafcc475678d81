/** The four check sums of the demos as their loops compute them: `crc8` of
    python/demo_ds18b20.py and `crc16` of demo/usb_fs_check.py shift right, `crc15` of
    demo/traffic.py and `crc8_autosar` of demo/learn_prepare.py shift left. Each is the
    remainder register of Gf2, the first two with the register and the bytes mirrored. */
module Crc {
  import opened Gf2
  import opened Words

  // the generators' lower coefficients, in the order their registers hold them

  const DALLAS: Bits := Lsb8(0x8C)
  const USB: Bits := Lsb16(0xA001)
  const CAN: Bits := Msb15(0x4599)
  const AUTOSAR: Bits := Msb8(0x2F)

  /** A message of bytes in the order their bits are sent, lowest or highest first. */
  function LsbBits(data: seq<bv8>): Bits {
    if data == [] then [] else LsbBits(data[..|data| - 1]) + Lsb8(data[|data| - 1])
  }

  function MsbBits(data: seq<bv8>): Bits {
    if data == [] then [] else MsbBits(data[..|data| - 1]) + Msb8(data[|data| - 1])
  }

  lemma LsbBitsMore(data: seq<bv8>, byte: bv8)
    ensures LsbBits(data + [byte]) == LsbBits(data) + Lsb8(byte)
  {
    assert (data + [byte])[..|data|] == data;
  }

  lemma MsbBitsMore(data: seq<bv8>, byte: bv8)
    ensures MsbBits(data + [byte]) == MsbBits(data) + Msb8(byte)
  {
    assert (data + [byte])[..|data|] == data;
  }

  ghost predicate IsCrc8(data: seq<bv8>, crc: bv8) {
    Lsb8(crc) == Run(Zeros(8), LsbBits(data), DALLAS)
  }

  ghost predicate IsCrc16(data: seq<bv8>, crc: bv16) {
    Lsb16(crc ^ 0xFFFF) == Run(Ones(16), LsbBits(data), USB)
  }

  ghost predicate IsCrc15(bits: Bits, crc: bv15) {
    Msb15(crc) == Run(Zeros(15), bits, CAN)
  }

  ghost predicate IsAutosar(data: seq<bv8>, crc: bv8) {
    Msb8(crc ^ 0xFF) == Run(Ones(8), MsbBits(data), AUTOSAR)
  }

  // one clock of each loop

  function Right8(c: bv8, bit: bool, g: bv8): (d: bv8)
    ensures Lsb8(d) == Step(Lsb8(c), bit, Lsb8(g))
  {
    LsbShift8(c);
    LsbXor8(c >> 1, g);
    assert Lsb8(c)[0] == Bit8(c, 1);
    if Bit8(c, 1) != bit then (c >> 1) ^ g else c >> 1
  }

  function Right16(c: bv16, bit: bool, g: bv16): (d: bv16)
    ensures Lsb16(d) == Step(Lsb16(c), bit, Lsb16(g))
  {
    LsbShift16(c);
    LsbXor16(c >> 1, g);
    assert Lsb16(c)[0] == Bit16(c, 1);
    if Bit16(c, 1) != bit then (c >> 1) ^ g else c >> 1
  }

  lemma Top15(c: bv15)
    ensures Msb15(c)[0] == Bit15(c, 0x4000)
  {
  }

  lemma LeftPlain15(c: bv15, bit: bool, g: bv15)
    requires Bit15(c, 0x4000) == bit
    ensures Msb15(c << 1) == Step(Msb15(c), bit, Msb15(g))
  {
    Top15(c);
    MsbShift15(c);
  }

  lemma LeftAdded15(c: bv15, bit: bool, g: bv15)
    requires Bit15(c, 0x4000) != bit
    ensures Msb15((c << 1) ^ g) == Step(Msb15(c), bit, Msb15(g))
  {
    Top15(c);
    MsbShift15(c);
    MsbXor15(c << 1, g);
  }

  function Left15(c: bv15, bit: bool, g: bv15): (d: bv15)
    ensures Msb15(d) == Step(Msb15(c), bit, Msb15(g))
  {
    if Bit15(c, 0x4000) != bit then LeftAdded15(c, bit, g); (c << 1) ^ g
    else LeftPlain15(c, bit, g); c << 1
  }

  function Left8(c: bv8, g: bv8): (d: bv8)
    ensures Msb8(d) == Step(Msb8(c), false, Msb8(g))
  {
    MsbShift8(c);
    MsbXor8(c << 1, g);
    assert Msb8(c)[0] == Bit8(c, 0x80);
    if Bit8(c, 0x80) then (c << 1) ^ g else c << 1
  }

  // the loops

  lemma RunMore(r: Bits, m: Bits, k: nat, g: Bits)
    requires |r| == |g| > 0 && k < |m|
    ensures Run(r, m[..k + 1], g) == Step(Run(r, m[..k], g), m[k], g)
  {
    assert m[..k + 1][..k] == m[..k];
  }

  lemma RestOfByte(byte: bv8, rest: bv8, j: nat)
    requires j < 8 && Lsb8(rest) == Lsb8(byte)[j..] + Zeros(j)
    ensures Bit8(rest, 1) == Lsb8(byte)[j]
    ensures Lsb8(rest >> 1) == Lsb8(byte)[j + 1..] + Zeros(j + 1)
  {
    assert Lsb8(rest)[0] == Bit8(rest, 1);
    LsbShift8(rest);
    ShiftRest(Lsb8(byte), j);
  }

  lemma ShiftRest(s: Bits, j: nat)
    requires j < |s|
    ensures Shift(s[j..] + Zeros(j)) == s[j + 1..] + Zeros(j + 1)
  {
    var a, b := Shift(s[j..] + Zeros(j)), s[j + 1..] + Zeros(j + 1);
    forall i | 0 <= i < |s| ensures a[i] == b[i] {
    }
  }

  /** The inner loop over one byte, which shifts the byte along. */
  method DallasByte(start: bv8, byte: bv8) returns (crc: bv8)
    ensures Lsb8(crc) == Run(Lsb8(start), Lsb8(byte), DALLAS)
  {
    crc := start;
    var rest, j := byte, 0;
    while j < 8
      invariant 0 <= j <= 8
      invariant Lsb8(crc) == Run(Lsb8(start), Lsb8(byte)[..j], DALLAS)
      invariant Lsb8(rest) == Lsb8(byte)[j..] + Zeros(j)
    {
      RunMore(Lsb8(start), Lsb8(byte), j, DALLAS);
      RestOfByte(byte, rest, j);
      crc := Right8(crc, Bit8(rest, 1), 0x8C);
      rest := rest >> 1;
      j := j + 1;
    }
    assert Lsb8(byte)[..8] == Lsb8(byte);
  }

  /** Dallas CRC-8 is the remainder of the bytes, lowest bits first, by x^8 + x^5 + x^4 + 1. */
  method Crc8(data: seq<bv8>) returns (crc: bv8)
    ensures IsCrc8(data, crc)
  {
    crc := 0;
    assert Lsb8(0) == Zeros(8);
    var n := 0;
    while n < |data|
      invariant 0 <= n <= |data| && IsCrc8(data[..n], crc)
    {
      LsbRunMore(Zeros(8), data, n, DALLAS);
      crc := DallasByte(crc, data[n]);
      n := n + 1;
    }
    assert data[..n] == data;
  }

  lemma LsbRunMore(r: Bits, data: seq<bv8>, n: nat, g: Bits)
    requires |r| == |g| > 0 && n < |data|
    ensures Run(r, LsbBits(data[..n + 1]), g) == Run(Run(r, LsbBits(data[..n]), g), Lsb8(data[n]), g)
  {
    assert data[..n + 1] == data[..n] + [data[n]];
    LsbBitsMore(data[..n], data[n]);
    RunThen(r, LsbBits(data[..n]), Lsb8(data[n]), g);
  }

  lemma MsbRunMore(r: Bits, data: seq<bv8>, n: nat, g: Bits)
    requires |r| == |g| > 0 && n < |data|
    ensures Run(r, MsbBits(data[..n + 1]), g) == Run(Run(r, MsbBits(data[..n]), g), Msb8(data[n]), g)
  {
    assert data[..n + 1] == data[..n] + [data[n]];
    MsbBitsMore(data[..n], data[n]);
    RunThen(r, MsbBits(data[..n]), Msb8(data[n]), g);
  }

  function PickBit(byte: bv8, i: nat): (bit: bool)
    requires i < 8
    ensures bit == Lsb8(byte)[i]
  {
    ShiftedBy(byte, i);
    Bit8(byte >> i, 1)
  }

  /** The inner loop over one byte, which picks its bits. */
  method UsbByte(start: bv16, byte: bv8) returns (crc: bv16)
    ensures Lsb16(crc) == Run(Lsb16(start), Lsb8(byte), USB)
  {
    crc := start;
    var i := 0;
    while i < 8
      invariant 0 <= i <= 8
      invariant Lsb16(crc) == Run(Lsb16(start), Lsb8(byte)[..i], USB)
    {
      RunMore(Lsb16(start), Lsb8(byte), i, USB);
      var bit := PickBit(byte, i);
      crc := Right16(crc, bit, 0xA001);
      i := i + 1;
    }
    assert Lsb8(byte)[..8] == Lsb8(byte);
  }

  /** USB CRC-16, section 8.3.5 of the USB 2.0 specification: preset to ones, complemented. */
  method Crc16(data: seq<bv8>) returns (crc: bv16)
    ensures IsCrc16(data, crc)
  {
    crc := 0xFFFF;
    AllOnes();
    var n := 0;
    while n < |data|
      invariant 0 <= n <= |data| && Lsb16(crc) == Run(Ones(16), LsbBits(data[..n]), USB)
    {
      LsbRunMore(Ones(16), data, n, USB);
      crc := UsbByte(crc, data[n]);
      n := n + 1;
    }
    assert data[..n] == data;
    crc := crc ^ 0xFFFF;
    assert crc ^ 0xFFFF ^ 0xFFFF == crc;
  }

  lemma AllOnes()
    ensures Lsb16(0xFFFF) == Ones(16) && Msb8(0xFF) == Ones(8) && Lsb8(0) == Zeros(8) && Msb15(0) == Zeros(15)
  {
  }

  /** CAN CRC-15, section 3.1.1 of Bosch CAN 2.0 Part A, over bits. */
  method Crc15(bits: Bits) returns (crc: bv15)
    ensures IsCrc15(bits, crc)
  {
    crc := 0;
    AllOnes();
    var n := 0;
    while n < |bits|
      invariant 0 <= n <= |bits| && IsCrc15(bits[..n], crc)
    {
      RunMore(Zeros(15), bits, n, CAN);
      crc := Left15(crc, bits[n], 0x4599);
      n := n + 1;
    }
    assert bits[..n] == bits;
  }

  /** A byte xored in at the top, then eight clocks. */
  method AutosarByte(start: bv8, byte: bv8) returns (crc: bv8)
    ensures Msb8(crc) == Run(Msb8(start), Msb8(byte), AUTOSAR)
  {
    crc := start ^ byte;
    MsbXor8(start, byte);
    XorInFirst(Msb8(start), Msb8(byte), AUTOSAR);
    assert Padded(Msb8(byte), 8) == Msb8(byte);
    ghost var first := Msb8(crc);
    var j := 0;
    while j < 8
      invariant 0 <= j <= 8 && Msb8(crc) == Run(first, Zeros(8)[..j], AUTOSAR)
    {
      RunMore(first, Zeros(8), j, AUTOSAR);
      crc := Left8(crc, 0x2F);
      j := j + 1;
    }
    assert Zeros(8)[..8] == Zeros(8);
  }

  method Crc8Autosar(data: seq<bv8>) returns (crc: bv8)
    ensures IsAutosar(data, crc)
  {
    crc := 0xFF;
    AllOnes();
    var n := 0;
    while n < |data|
      invariant 0 <= n <= |data| && Msb8(crc) == Run(Ones(8), MsbBits(data[..n]), AUTOSAR)
    {
      MsbRunMore(Ones(8), data, n, AUTOSAR);
      crc := AutosarByte(crc, data[n]);
      n := n + 1;
    }
    assert data[..n] == data;
    crc := crc ^ 0xFF;
    assert crc ^ 0xFF ^ 0xFF == crc;
  }

  // each check sum is the one remainder

  /** Some quotient and the check sum make up the message, eight places up, and no other eight
      bits do. */
  lemma Crc8IsRemainder(data: seq<bv8>, crc: bv8)
    ensures IsCrc8(data, crc) <==> IsRemainder(LsbBits(data), Zeros(8), DALLAS, Lsb8(crc))
  {
    RemainderIsRun(LsbBits(data), Zeros(8), DALLAS, Lsb8(crc));
  }

  lemma Crc15IsRemainder(bits: Bits, crc: bv15)
    ensures IsCrc15(bits, crc) <==> IsRemainder(bits, Zeros(15), CAN, Msb15(crc))
  {
    RemainderIsRun(bits, Zeros(15), CAN, Msb15(crc));
  }

  /** Preset to ones, the message's first bits count complemented; the remainder is sent so too. */
  lemma Crc16IsRemainder(data: seq<bv8>, crc: bv16)
    ensures IsCrc16(data, crc) <==> IsRemainder(LsbBits(data), Ones(16), USB, Lsb16(crc ^ 0xFFFF))
  {
    RemainderIsRun(LsbBits(data), Ones(16), USB, Lsb16(crc ^ 0xFFFF));
  }

  lemma AutosarIsRemainder(data: seq<bv8>, crc: bv8)
    ensures IsAutosar(data, crc) <==> IsRemainder(MsbBits(data), Ones(8), AUTOSAR, Msb8(crc ^ 0xFF))
  {
    RemainderIsRun(MsbBits(data), Ones(8), AUTOSAR, Msb8(crc ^ 0xFF));
  }

  // messages that carry their check sum

  lemma GeneratorsEndInOne()
    ensures DALLAS[7] && USB[15] && CAN[14] && AUTOSAR[7]
  {
  }

  /** Zero over a whole ROM or scratchpad: exactly if its last byte is the others' check sum. */
  lemma Crc8Closes(data: seq<bv8>, crc: bv8, last: bv8)
    requires IsCrc8(data, crc)
    ensures IsCrc8(data + [last], 0) <==> last == crc
  {
    AllOnes();
    GeneratorsEndInOne();
    LsbBitsMore(data, last);
    Residue(Zeros(8), LsbBits(data), Lsb8(last), DALLAS);
    if Lsb8(last) == Lsb8(crc) {
      LsbInjective8(last, crc);
    }
  }

  lemma Crc15Closes(bits: Bits, crc: bv15, tail: Bits)
    requires IsCrc15(bits, crc) && |tail| == 15
    ensures IsCrc15(bits + tail, 0) <==> tail == Msb15(crc)
  {
    AllOnes();
    GeneratorsEndInOne();
    Residue(Zeros(15), bits, tail, CAN);
  }

  /** Sixteen clocks on zeros from all ones leave USB's residual, 0x800D with its highest bit
      first. */
  lemma UsbResidual()
    ensures Run(Ones(16), Zeros(16), USB) == Lsb16(0xB001)
  {
    AllOnes();
    UsbClocks(0xFFFF, 16);
    UsbSixteen();
  }

  function UsbZeros(c: bv16, n: nat): bv16 {
    if n == 0 then c else Right16(UsbZeros(c, n - 1), false, 0xA001)
  }

  lemma {:induction false} UsbClocks(c: bv16, n: nat)
    ensures Lsb16(UsbZeros(c, n)) == Run(Lsb16(c), Zeros(n), USB)
  {
    if n > 0 {
      UsbClocks(c, n - 1);
      assert Zeros(n)[..n - 1] == Zeros(n - 1);
    }
  }

  lemma UsbSixteen()
    ensures UsbZeros(0xFFFF, 16) == 0xB001
  {
    assert UsbZeros(0xFFFF, 0) == 0xFFFF;
    assert UsbZeros(0xFFFF, 1) == 0xDFFE && UsbZeros(0xFFFF, 2) == 0x6FFF && UsbZeros(0xFFFF, 3) == 0x97FE
           && UsbZeros(0xFFFF, 4) == 0x4BFF;
    assert UsbZeros(0xFFFF, 5) == 0x85FE && UsbZeros(0xFFFF, 6) == 0x42FF && UsbZeros(0xFFFF, 7) == 0x817E
           && UsbZeros(0xFFFF, 8) == 0x40BF;
    assert UsbZeros(0xFFFF, 9) == 0x805E && UsbZeros(0xFFFF, 10) == 0x402F && UsbZeros(0xFFFF, 11) == 0x8016
           && UsbZeros(0xFFFF, 12) == 0x400B;
    assert UsbZeros(0xFFFF, 13) == 0x8004 && UsbZeros(0xFFFF, 14) == 0x4002 && UsbZeros(0xFFFF, 15) == 0x2001
           && UsbZeros(0xFFFF, 16) == 0xB001;
  }

  /** A packet ends in its check sum, low byte first, exactly if the check sum over all of it
      is one constant, whatever the data. */
  lemma Crc16Closes(data: seq<bv8>, crc: bv16, low: bv8, high: bv8)
    requires IsCrc16(data, crc)
    ensures IsCrc16(data + [low, high], 0x4FFE) <==> Joined16(low, high) == crc
  {
    JoinedBits(low, high);
    if Lsb16(Joined16(low, high)) == Lsb16(crc) {
      LsbInjective16(Joined16(low, high), crc);
    }
    GeneratorsEndInOne();
    TwoBytes(data, low, high);
    Complement16(crc);
    Complement16(0x4FFE);
    UsbResidual();
    ResidueTold(Ones(16), LsbBits(data), Lsb8(low) + Lsb8(high), USB);
  }

  lemma Complement16(c: bv16)
    ensures Not(Lsb16(c ^ 0xFFFF)) == Lsb16(c)
  {
    AllOnes();
    LsbXor16(c, 0xFFFF);
  }

  lemma Complement8(c: bv8)
    ensures Not(Msb8(c ^ 0xFF)) == Msb8(c)
  {
    AllOnes();
    MsbXor8(c, 0xFF);
  }

  lemma TwoBytes(data: seq<bv8>, low: bv8, high: bv8)
    ensures LsbBits(data + [low, high]) == LsbBits(data) + (Lsb8(low) + Lsb8(high))
  {
    assert data + [low, high] == data + [low] + [high];
    LsbBitsMore(data + [low], high);
    LsbBitsMore(data, low);
  }

  lemma AutosarResidual()
    ensures Run(Ones(8), Zeros(8), AUTOSAR) == Msb8(0x42)
  {
    AllOnes();
    AutosarClocks(0xFF, 8);
    AutosarEight();
  }

  function AutosarZeros(c: bv8, n: nat): bv8 {
    if n == 0 then c else Left8(AutosarZeros(c, n - 1), 0x2F)
  }

  lemma {:induction false} AutosarClocks(c: bv8, n: nat)
    ensures Msb8(AutosarZeros(c, n)) == Run(Msb8(c), Zeros(n), AUTOSAR)
  {
    if n > 0 {
      AutosarClocks(c, n - 1);
      assert Zeros(n)[..n - 1] == Zeros(n - 1);
    }
  }

  lemma AutosarEight()
    ensures AutosarZeros(0xFF, 8) == 0x42
  {
    assert AutosarZeros(0xFF, 0) == 0xFF;
    assert AutosarZeros(0xFF, 1) == 0xD1 && AutosarZeros(0xFF, 2) == 0x8D && AutosarZeros(0xFF, 3) == 0x35
           && AutosarZeros(0xFF, 4) == 0x6A;
    assert AutosarZeros(0xFF, 5) == 0xD4 && AutosarZeros(0xFF, 6) == 0x87 && AutosarZeros(0xFF, 7) == 0x21
           && AutosarZeros(0xFF, 8) == 0x42;
  }

  lemma AutosarCloses(data: seq<bv8>, crc: bv8, last: bv8)
    requires IsAutosar(data, crc)
    ensures IsAutosar(data + [last], 0xBD) <==> last == crc
  {
    GeneratorsEndInOne();
    MsbBitsMore(data, last);
    Complement8(crc);
    AutosarResidual();
    ResidueTold(Ones(8), MsbBits(data), Msb8(last), AUTOSAR);
    if Msb8(last) == Msb8(crc) {
      MsbInjective8(last, crc);
    }
  }

  // bursts

  /** Two messages of one length that differ in a burst no longer than the check sum have
      different check sums, wherever the burst is and whatever else they hold. */
  lemma Crc8Burst(a: seq<bv8>, b: seq<bv8>, from: nat, span: nat, x: bv8, y: bv8)
    requires Burst(LsbBits(a), LsbBits(b), from, span) && span <= 8 && IsCrc8(a, x) && IsCrc8(b, y)
    ensures x != y
  {
    GeneratorsEndInOne();
    BurstDetected(Zeros(8), LsbBits(a), LsbBits(b), from, span, DALLAS);
  }

  lemma Crc16Burst(a: seq<bv8>, b: seq<bv8>, from: nat, span: nat, x: bv16, y: bv16)
    requires Burst(LsbBits(a), LsbBits(b), from, span) && span <= 16 && IsCrc16(a, x) && IsCrc16(b, y)
    ensures x != y
  {
    GeneratorsEndInOne();
    BurstDetected(Ones(16), LsbBits(a), LsbBits(b), from, span, USB);
  }

  lemma Crc15Burst(a: Bits, b: Bits, from: nat, span: nat, x: bv15, y: bv15)
    requires Burst(a, b, from, span) && span <= 15 && IsCrc15(a, x) && IsCrc15(b, y)
    ensures x != y
  {
    GeneratorsEndInOne();
    BurstDetected(Zeros(15), a, b, from, span, CAN);
  }

  lemma AutosarBurst(a: seq<bv8>, b: seq<bv8>, from: nat, span: nat, x: bv8, y: bv8)
    requires Burst(MsbBits(a), MsbBits(b), from, span) && span <= 8 && IsAutosar(a, x) && IsAutosar(b, y)
    ensures x != y
  {
    GeneratorsEndInOne();
    BurstDetected(Ones(8), MsbBits(a), MsbBits(b), from, span, AUTOSAR);
  }

  // mirrors

  /** The shift-right registers divide by the generators the standards print, highest power
      first: x^8 + x^5 + x^4 + 1 and x^16 + x^15 + x^2 + 1. */
  lemma MirroredGenerators()
    ensures DALLAS == Msb8(0x31) == Mirror(Msb8(0x8C))
    ensures USB == Msb8(0x80) + Msb8(0x05)
  {
  }
}
