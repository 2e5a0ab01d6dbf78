/** crc.c: CRC-8 and CRC-16 checksums over tables, and what they detect. */
module Crc {
  import opened Checksums

  /** Sixteen entries of a table. */
  datatype Row<T> = Row(e0: T, e1: T, e2: T, e3: T, e4: T, e5: T, e6: T, e7: T,
                        e8: T, e9: T, e10: T, e11: T, e12: T, e13: T, e14: T, e15: T)

  function Pick<T>(row: Row<T>, lo: bv8): T {
    if lo == 0 then row.e0 else if lo == 1 then row.e1 else if lo == 2 then row.e2 else if lo == 3 then row.e3
    else if lo == 4 then row.e4 else if lo == 5 then row.e5 else if lo == 6 then row.e6 else if lo == 7 then row.e7
    else if lo == 8 then row.e8 else if lo == 9 then row.e9 else if lo == 10 then row.e10 else if lo == 11 then row.e11
    else if lo == 12 then row.e12 else if lo == 13 then row.e13 else if lo == 14 then row.e14 else row.e15
  }

  /** One step of dividing by x^8 + x^5 + x^4 + 1, lowest bit first. */
  function Step8(c: bv8): bv8 {
    if c & 1 == 1 then (c >> 1) ^ 0x8c else c >> 1
  }

  /** One step of dividing by x^16 + x^12 + x^5 + 1, lowest bit first. */
  function Step16(c: bv16): bv16 {
    if c & 1 == 1 then (c >> 1) ^ 0x8408 else c >> 1
  }

  /** The division goes on for one byte. */
  function Shift8(c: bv8): bv8 {
    Iterate(Step8, 8, c)
  }

  function Shift16(c: bv16): bv16 {
    Iterate(Step16, 8, c)
  }

  function ShiftByte(b: Byte): bv16 {
    Shift16(Wide(b))
  }

  /** The remainder after one more byte: the byte is added, then divided. */
  function Next8(c: bv8, b: Byte): bv8 {
    Shift8(c ^ b)
  }

  function Next16(c: bv16, b: Byte): bv16 {
    Shift16(c ^ Wide(b))
  }

  function Row8(hi: bv8): Row<bv8> {
    if hi == 0 then
      Row(0x00, 0x5e, 0xbc, 0xe2, 0x61, 0x3f, 0xdd, 0x83, 0xc2, 0x9c, 0x7e, 0x20, 0xa3, 0xfd, 0x1f, 0x41)
    else if hi == 1 then
      Row(0x9d, 0xc3, 0x21, 0x7f, 0xfc, 0xa2, 0x40, 0x1e, 0x5f, 0x01, 0xe3, 0xbd, 0x3e, 0x60, 0x82, 0xdc)
    else if hi == 2 then
      Row(0x23, 0x7d, 0x9f, 0xc1, 0x42, 0x1c, 0xfe, 0xa0, 0xe1, 0xbf, 0x5d, 0x03, 0x80, 0xde, 0x3c, 0x62)
    else if hi == 3 then
      Row(0xbe, 0xe0, 0x02, 0x5c, 0xdf, 0x81, 0x63, 0x3d, 0x7c, 0x22, 0xc0, 0x9e, 0x1d, 0x43, 0xa1, 0xff)
    else if hi == 4 then
      Row(0x46, 0x18, 0xfa, 0xa4, 0x27, 0x79, 0x9b, 0xc5, 0x84, 0xda, 0x38, 0x66, 0xe5, 0xbb, 0x59, 0x07)
    else if hi == 5 then
      Row(0xdb, 0x85, 0x67, 0x39, 0xba, 0xe4, 0x06, 0x58, 0x19, 0x47, 0xa5, 0xfb, 0x78, 0x26, 0xc4, 0x9a)
    else if hi == 6 then
      Row(0x65, 0x3b, 0xd9, 0x87, 0x04, 0x5a, 0xb8, 0xe6, 0xa7, 0xf9, 0x1b, 0x45, 0xc6, 0x98, 0x7a, 0x24)
    else if hi == 7 then
      Row(0xf8, 0xa6, 0x44, 0x1a, 0x99, 0xc7, 0x25, 0x7b, 0x3a, 0x64, 0x86, 0xd8, 0x5b, 0x05, 0xe7, 0xb9)
    else if hi == 8 then
      Row(0x8c, 0xd2, 0x30, 0x6e, 0xed, 0xb3, 0x51, 0x0f, 0x4e, 0x10, 0xf2, 0xac, 0x2f, 0x71, 0x93, 0xcd)
    else if hi == 9 then
      Row(0x11, 0x4f, 0xad, 0xf3, 0x70, 0x2e, 0xcc, 0x92, 0xd3, 0x8d, 0x6f, 0x31, 0xb2, 0xec, 0x0e, 0x50)
    else if hi == 10 then
      Row(0xaf, 0xf1, 0x13, 0x4d, 0xce, 0x90, 0x72, 0x2c, 0x6d, 0x33, 0xd1, 0x8f, 0x0c, 0x52, 0xb0, 0xee)
    else if hi == 11 then
      Row(0x32, 0x6c, 0x8e, 0xd0, 0x53, 0x0d, 0xef, 0xb1, 0xf0, 0xae, 0x4c, 0x12, 0x91, 0xcf, 0x2d, 0x73)
    else if hi == 12 then
      Row(0xca, 0x94, 0x76, 0x28, 0xab, 0xf5, 0x17, 0x49, 0x08, 0x56, 0xb4, 0xea, 0x69, 0x37, 0xd5, 0x8b)
    else if hi == 13 then
      Row(0x57, 0x09, 0xeb, 0xb5, 0x36, 0x68, 0x8a, 0xd4, 0x95, 0xcb, 0x29, 0x77, 0xf4, 0xaa, 0x48, 0x16)
    else if hi == 14 then
      Row(0xe9, 0xb7, 0x55, 0x0b, 0x88, 0xd6, 0x34, 0x6a, 0x2b, 0x75, 0x97, 0xc9, 0x4a, 0x14, 0xf6, 0xa8)
    else
      Row(0x74, 0x2a, 0xc8, 0x96, 0x15, 0x4b, 0xa9, 0xf7, 0xb6, 0xe8, 0x0a, 0x54, 0xd7, 0x89, 0x6b, 0x35)
  }

  function Row16(hi: bv8): Row<bv16> {
    if hi == 0 then
      Row(0x0000, 0x1189, 0x2312, 0x329b, 0x4624, 0x57ad, 0x6536, 0x74bf,
          0x8c48, 0x9dc1, 0xaf5a, 0xbed3, 0xca6c, 0xdbe5, 0xe97e, 0xf8f7)
    else if hi == 1 then
      Row(0x1081, 0x0108, 0x3393, 0x221a, 0x56a5, 0x472c, 0x75b7, 0x643e,
          0x9cc9, 0x8d40, 0xbfdb, 0xae52, 0xdaed, 0xcb64, 0xf9ff, 0xe876)
    else if hi == 2 then
      Row(0x2102, 0x308b, 0x0210, 0x1399, 0x6726, 0x76af, 0x4434, 0x55bd,
          0xad4a, 0xbcc3, 0x8e58, 0x9fd1, 0xeb6e, 0xfae7, 0xc87c, 0xd9f5)
    else if hi == 3 then
      Row(0x3183, 0x200a, 0x1291, 0x0318, 0x77a7, 0x662e, 0x54b5, 0x453c,
          0xbdcb, 0xac42, 0x9ed9, 0x8f50, 0xfbef, 0xea66, 0xd8fd, 0xc974)
    else if hi == 4 then
      Row(0x4204, 0x538d, 0x6116, 0x709f, 0x0420, 0x15a9, 0x2732, 0x36bb,
          0xce4c, 0xdfc5, 0xed5e, 0xfcd7, 0x8868, 0x99e1, 0xab7a, 0xbaf3)
    else if hi == 5 then
      Row(0x5285, 0x430c, 0x7197, 0x601e, 0x14a1, 0x0528, 0x37b3, 0x263a,
          0xdecd, 0xcf44, 0xfddf, 0xec56, 0x98e9, 0x8960, 0xbbfb, 0xaa72)
    else if hi == 6 then
      Row(0x6306, 0x728f, 0x4014, 0x519d, 0x2522, 0x34ab, 0x0630, 0x17b9,
          0xef4e, 0xfec7, 0xcc5c, 0xddd5, 0xa96a, 0xb8e3, 0x8a78, 0x9bf1)
    else if hi == 7 then
      Row(0x7387, 0x620e, 0x5095, 0x411c, 0x35a3, 0x242a, 0x16b1, 0x0738,
          0xffcf, 0xee46, 0xdcdd, 0xcd54, 0xb9eb, 0xa862, 0x9af9, 0x8b70)
    else if hi == 8 then
      Row(0x8408, 0x9581, 0xa71a, 0xb693, 0xc22c, 0xd3a5, 0xe13e, 0xf0b7,
          0x0840, 0x19c9, 0x2b52, 0x3adb, 0x4e64, 0x5fed, 0x6d76, 0x7cff)
    else if hi == 9 then
      Row(0x9489, 0x8500, 0xb79b, 0xa612, 0xd2ad, 0xc324, 0xf1bf, 0xe036,
          0x18c1, 0x0948, 0x3bd3, 0x2a5a, 0x5ee5, 0x4f6c, 0x7df7, 0x6c7e)
    else if hi == 10 then
      Row(0xa50a, 0xb483, 0x8618, 0x9791, 0xe32e, 0xf2a7, 0xc03c, 0xd1b5,
          0x2942, 0x38cb, 0x0a50, 0x1bd9, 0x6f66, 0x7eef, 0x4c74, 0x5dfd)
    else if hi == 11 then
      Row(0xb58b, 0xa402, 0x9699, 0x8710, 0xf3af, 0xe226, 0xd0bd, 0xc134,
          0x39c3, 0x284a, 0x1ad1, 0x0b58, 0x7fe7, 0x6e6e, 0x5cf5, 0x4d7c)
    else if hi == 12 then
      Row(0xc60c, 0xd785, 0xe51e, 0xf497, 0x8028, 0x91a1, 0xa33a, 0xb2b3,
          0x4a44, 0x5bcd, 0x6956, 0x78df, 0x0c60, 0x1de9, 0x2f72, 0x3efb)
    else if hi == 13 then
      Row(0xd68d, 0xc704, 0xf59f, 0xe416, 0x90a9, 0x8120, 0xb3bb, 0xa232,
          0x5ac5, 0x4b4c, 0x79d7, 0x685e, 0x1ce1, 0x0d68, 0x3ff3, 0x2e7a)
    else if hi == 14 then
      Row(0xe70e, 0xf687, 0xc41c, 0xd595, 0xa12a, 0xb0a3, 0x8238, 0x93b1,
          0x6b46, 0x7acf, 0x4854, 0x59dd, 0x2d62, 0x3ceb, 0x0e70, 0x1ff9)
    else
      Row(0xf78f, 0xe606, 0xd49d, 0xc514, 0xb1ab, 0xa022, 0x92b9, 0x8330,
          0x7bc7, 0x6a4e, 0x58d5, 0x495c, 0x3de3, 0x2c6a, 0x1ef1, 0x0f78)
  }

  /** CRC8_TAB, in rows of sixteen. */
  function Table8(i: Byte): bv8 {
    Pick(Row8(i >> 4), i & 15)
  }

  /** wCRC_Table */
  function Table16(i: Byte): bv16 {
    Pick(Row16(i >> 4), i & 15)
  }

  function Wide(b: Byte): bv16 {
    b as bv16
  }

  function Low(c: bv16): Byte {
    (c & 0xff) as bv8
  }

  function High(c: bv16): Byte {
    (c >> 8) as bv8
  }

  /** What a function makes of sixteen bytes that differ in their low bits. */
  function Sixteen<T>(f: Byte -> T, base: Byte): Row<T> {
    Row(f(base | 0), f(base | 1), f(base | 2), f(base | 3),
        f(base | 4), f(base | 5), f(base | 6), f(base | 7),
        f(base | 8), f(base | 9), f(base | 10), f(base | 11),
        f(base | 12), f(base | 13), f(base | 14), f(base | 15))
  }

  lemma PickSixteen<T>(f: Byte -> T, base: Byte, lo: bv8)
    requires lo < 16
    ensures Pick(Sixteen(f, base), lo) == f(base | lo)
  {
  }

  // ----- The tables -----

  /** The eight steps written out, as the entries of the tables are checked by them. */
  function Eight8(c: bv8): bv8 {
    var c := if c & 1 == 1 then (c >> 1) ^ 0x8c else c >> 1;
    var c := if c & 1 == 1 then (c >> 1) ^ 0x8c else c >> 1;
    var c := if c & 1 == 1 then (c >> 1) ^ 0x8c else c >> 1;
    var c := if c & 1 == 1 then (c >> 1) ^ 0x8c else c >> 1;
    var c := if c & 1 == 1 then (c >> 1) ^ 0x8c else c >> 1;
    var c := if c & 1 == 1 then (c >> 1) ^ 0x8c else c >> 1;
    var c := if c & 1 == 1 then (c >> 1) ^ 0x8c else c >> 1;
    if c & 1 == 1 then (c >> 1) ^ 0x8c else c >> 1
  }

  function EightByte(b: Byte): bv16 {
    var c := Wide(b);
    var c := if c & 1 == 1 then (c >> 1) ^ 0x8408 else c >> 1;
    var c := if c & 1 == 1 then (c >> 1) ^ 0x8408 else c >> 1;
    var c := if c & 1 == 1 then (c >> 1) ^ 0x8408 else c >> 1;
    var c := if c & 1 == 1 then (c >> 1) ^ 0x8408 else c >> 1;
    var c := if c & 1 == 1 then (c >> 1) ^ 0x8408 else c >> 1;
    var c := if c & 1 == 1 then (c >> 1) ^ 0x8408 else c >> 1;
    var c := if c & 1 == 1 then (c >> 1) ^ 0x8408 else c >> 1;
    if c & 1 == 1 then (c >> 1) ^ 0x8408 else c >> 1
  }

  lemma Steps8(c: bv8)
    ensures Step8(Step8(Step8(Step8(Step8(Step8(Step8(Step8(c)))))))) == Eight8(c)
  {
  }

  lemma Steps16(b: Byte)
    ensures Step16(Step16(Step16(Step16(Step16(Step16(Step16(Step16(Wide(b))))))))) == EightByte(b)
  {
    var half := Step16(Step16(Step16(Step16(Wide(b)))));
    assert b & 15 == 0 ==> half == Wide(b) >> 4;
  }

  lemma Shift8Is(c: bv8)
    ensures Shift8(c) == Eight8(c)
  {
    EightTimes(Step8, c);
    Steps8(c);
  }

  lemma ShiftByteIs(b: Byte)
    ensures ShiftByte(b) == EightByte(b)
  {
    EightTimes(Step16, Wide(b));
    Steps16(b);
  }

  lemma Row8Is(hi: bv8)
    requires hi < 16
    ensures Row8(hi) == Sixteen(Eight8, hi << 4)
  {
  }

  lemma Row16Is(hi: bv8)
    requires hi < 16
    ensures Row16(hi) == Sixteen(EightByte, hi << 4)
  {
  }

  lemma Nibbles(i: Byte)
    ensures ((i >> 4) << 4) | (i & 15) == i && i >> 4 < 16 && i & 15 < 16
  {
  }

  lemma Entry8(i: Byte)
    ensures Table8(i) == Eight8(i)
  {
    Nibbles(i);
    Row8Is(i >> 4);
    PickSixteen(Eight8, (i >> 4) << 4, i & 15);
  }

  lemma Entry16(i: Byte)
    ensures Table16(i) == EightByte(i)
  {
    Nibbles(i);
    Row16Is(i >> 4);
    PickSixteen(EightByte, (i >> 4) << 4, i & 15);
  }

  /** Every entry of the tables is what dividing step by step gives. */
  lemma TableIs8(i: Byte)
    ensures Table8(i) == Shift8(i)
  {
    Entry8(i);
    Shift8Is(i);
  }

  lemma TableIs16(i: Byte)
    ensures Table16(i) == ShiftByte(i)
  {
    Entry16(i);
    ShiftByteIs(i);
  }

  // ----- Remainders of sums are sums of remainders -----

  function Add8(a: bv8, b: bv8): bv8 {
    a ^ b
  }

  function Add16(a: bv16, b: bv16): bv16 {
    a ^ b
  }

  lemma StepAdd8(a: bv8, b: bv8)
    ensures Step8(Add8(a, b)) == Add8(Step8(a), Step8(b))
  {
  }

  lemma EvenEven16(a: bv16, b: bv16)
    requires a & 1 != 1 && b & 1 != 1
    ensures Step16(Add16(a, b)) == Add16(Step16(a), Step16(b))
  {
  }

  lemma OddOdd16(a: bv16, b: bv16)
    requires a & 1 == 1 && b & 1 == 1
    ensures Step16(Add16(a, b)) == Add16(Step16(a), Step16(b))
  {
  }

  lemma OddEven16(a: bv16, b: bv16)
    requires a & 1 == 1 && b & 1 != 1
    ensures Step16(Add16(a, b)) == Add16(Step16(a), Step16(b))
  {
  }

  lemma EvenOdd16(a: bv16, b: bv16)
    requires a & 1 != 1 && b & 1 == 1
    ensures Step16(Add16(a, b)) == Add16(Step16(a), Step16(b))
  {
  }

  lemma StepAdd16(a: bv16, b: bv16)
    ensures Step16(Add16(a, b)) == Add16(Step16(a), Step16(b))
  {
    if a & 1 == 1 {
      if b & 1 == 1 {
        OddOdd16(a, b);
      } else {
        OddEven16(a, b);
      }
    } else if b & 1 == 1 {
      EvenOdd16(a, b);
    } else {
      EvenEven16(a, b);
    }
  }

  lemma StepsAdd8()
    ensures forall x, y :: Step8(Add8(x, y)) == Add8(Step8(x), Step8(y))
  {
    forall x, y
      ensures Step8(Add8(x, y)) == Add8(Step8(x), Step8(y))
    {
      StepAdd8(x, y);
    }
  }

  lemma StepsAdd16()
    ensures forall x, y :: Step16(Add16(x, y)) == Add16(Step16(x), Step16(y))
  {
    forall x, y
      ensures Step16(Add16(x, y)) == Add16(Step16(x), Step16(y))
    {
      StepAdd16(x, y);
    }
  }

  lemma ShiftAdd8(a: bv8, b: bv8)
    ensures Shift8(Add8(a, b)) == Add8(Shift8(a), Shift8(b))
  {
    StepsAdd8();
    IterateSum(Step8, Add8, 8, a, b);
  }

  lemma ShiftAdd16(a: bv16, b: bv16)
    ensures Shift16(Add16(a, b)) == Add16(Shift16(a), Shift16(b))
  {
    StepsAdd16();
    IterateSum(Step16, Add16, 8, a, b);
  }

  lemma Regroup8(s: bv8, t: bv8, b: Byte, e: Byte)
    ensures Add8(s, t) ^ (b ^ e) == Add8(s ^ b, t ^ e)
  {
  }

  lemma Regroup16(s: bv16, t: bv16, b: Byte, e: Byte)
    ensures Add16(s, t) ^ Wide(b ^ e) == Add16(s ^ Wide(b), t ^ Wide(e))
  {
  }

  lemma NextAdds8()
    ensures Adds(Next8, Add8) && forall s :: Add8(s, s) == 0
  {
    forall s, t, b, e
      ensures Next8(Add8(s, t), b ^ e) == Add8(Next8(s, b), Next8(t, e))
    {
      Regroup8(s, t, b, e);
      ShiftAdd8(s ^ b, t ^ e);
    }
  }

  lemma NextAdds16()
    ensures Adds(Next16, Add16) && forall s :: Add16(s, s) == 0
  {
    forall s, t, b, e
      ensures Next16(Add16(s, t), b ^ e) == Add16(Next16(s, b), Next16(t, e))
    {
      Regroup16(s, t, b, e);
      ShiftAdd16(s ^ Wide(b), t ^ Wide(e));
    }
  }

  // ----- Only the zero remainder becomes zero on a zero byte -----

  lemma StepZero8()
    ensures forall c :: Step8(c) == 0 <==> c == 0
  {
  }

  lemma StepZero16()
    ensures forall c :: Step16(c) == 0 <==> c == 0
  {
  }

  lemma ShiftZero8(c: bv8)
    ensures Shift8(c) == 0 <==> c == 0
  {
    StepZero8();
    IterateZero(Step8, 0, 8, c);
  }

  lemma ShiftZero16(c: bv16)
    ensures Shift16(c) == 0 <==> c == 0
  {
    StepZero16();
    IterateZero(Step16, 0, 8, c);
  }

  lemma Plus0(s: bv16)
    ensures s ^ Wide(0) == s
  {
  }

  lemma ZeroStays8()
    ensures ZeroStays(Next8, 0)
  {
    forall s
      ensures Next8(s, 0) == 0 <==> s == 0
    {
      ShiftZero8(s);
    }
  }

  lemma ZeroStays16()
    ensures ZeroStays(Next16, 0)
  {
    forall s
      ensures Next16(s, 0) == 0 <==> s == 0
    {
      Plus0(s);
      ShiftZero16(s);
    }
  }

  // ----- The high byte of a remainder is not touched by eight steps -----

  lemma Halves(c: bv16)
    ensures c == Add16(c & 0xff00, Wide(Low(c))) && (c & 0xff00) & 0xff == 0 && (c & 0xff00) >> 8 == c >> 8
  {
  }

  lemma EvenSteps16(c: bv16)
    requires c & 0xff == 0
    ensures Step16(Step16(Step16(Step16(Step16(Step16(Step16(Step16(c)))))))) == c >> 8
  {
  }

  lemma HighOnly(c: bv16)
    requires c & 0xff == 0
    ensures Shift16(c) == c >> 8
  {
    EightTimes(Step16, c);
    EvenSteps16(c);
  }

  lemma HighStays16(c: bv16)
    ensures Shift16(c) == Add16(c >> 8, ShiftByte(Low(c)))
  {
    Halves(c);
    ShiftAdd16(c & 0xff00, Wide(Low(c)));
    HighOnly(c & 0xff00);
  }

  // ----- Bursts -----

  /** A difference in the bits of a byte from k on is not made up for in the bits below
      k of the next byte. */
  lemma NoBurst8(d: Byte, k: bv8)
    requires k < 8 && From(d, k) && Below(Eight8(d), k)
    ensures d == 0
  {
  }

  lemma Sum0(b: Byte)
    ensures 0 ^ b == b
  {
  }

  lemma PairShows8(d1: Byte, d2: Byte, k: bv8)
    requires k < 8 && From(d1, k) && Below(d2, k) && Next8(Next8(0, d1), d2) == 0
    ensures d1 == 0 && d2 == 0
  {
    Sum0(d1);
    ShiftZero8(Next8(0, d1) ^ d2);
    SameByte(Next8(0, d1), d2);
    Shift8Is(d1);
    NoBurst8(d1, k);
    ShiftZero8(0);
  }

  lemma BurstsShow8()
    ensures BurstsShow(Next8, 0, 1)
  {
    forall d, k: bv8 | |d| == 2 && k < 8 && Burst(d, 0, k, 1) && Fold(Next8, 0, d) == 0
      ensures AllZero(d)
    {
      FoldTwo(Next8, 0, d);
      PairShows8(d[0], d[1], k);
    }
  }

  /** A difference in the bits of a byte from k on is not made up for in the bits below
      k of the next byte but one. */
  lemma NoBurst16(d: Byte, k: bv8)
    requires k < 8 && From(d, k) && Below(High(EightByte(d)), k)
    ensures d == 0
  {
  }

  lemma LowHalfZero(d: Byte)
    requires EightByte(d) >> 8 == 0
    ensures d == 0
  {
  }

  lemma TopOf(c: bv16, t: bv16, d: Byte)
    requires Add16(c >> 8, t) ^ Wide(d) == 0
    ensures t >> 8 == 0
  {
  }

  lemma TopIs(c: bv16, d: Byte)
    requires Add16(c >> 8, 0) ^ Wide(d) == 0
    ensures d == High(c)
  {
  }

  lemma LowSum(v: bv16, d: Byte)
    ensures Low(v ^ Wide(d)) == Low(v) ^ d
  {
  }

  lemma TopStays(v: bv16, d: Byte)
    ensures (v ^ Wide(d)) >> 8 == v >> 8
  {
  }

  lemma TopIsHigh(v: bv16, w: bv16)
    requires v >> 8 == w >> 8
    ensures High(v) == High(w)
  {
  }

  lemma NextTo0(x: bv16, d: Byte)
    requires Next16(Shift16(x), d) == 0
    ensures Add16(x >> 8, ShiftByte(Low(x))) ^ Wide(d) == 0
  {
    ShiftZero16(Shift16(x) ^ Wide(d));
    HighStays16(x);
  }

  lemma LastByteTo0(x: bv16, d: Byte)
    requires Next16(Shift16(x), d) == 0
    ensures Low(x) == 0 && d == High(x)
  {
    NextTo0(x, d);
    TopOf(x, ShiftByte(Low(x)), d);
    ShiftByteIs(Low(x));
    LowHalfZero(Low(x));
    Wide0(0);
    ShiftZero16(0);
    TopIs(x, d);
  }

  /** If two more bytes lead from v to zero, they are its two bytes. */
  lemma TwoBytesTo0(v: bv16, d2: Byte, d3: Byte)
    requires Next16(Next16(v, d2), d3) == 0
    ensures d2 == Low(v) && d3 == High(v)
  {
    LastByteTo0(v ^ Wide(d2), d3);
    LowSum(v, d2);
    TopStays(v, d2);
    TopIsHigh(v ^ Wide(d2), v);
    SameByte(Low(v), d2);
  }

  lemma TripleShows16(d1: Byte, d2: Byte, d3: Byte, k: bv8)
    requires k < 8 && From(d1, k) && Below(d3, k) && Next16(Next16(Next16(0, d1), d2), d3) == 0
    ensures d1 == 0 && d2 == 0 && d3 == 0
  {
    Wide0(d1);
    TwoBytesTo0(ShiftByte(d1), d2, d3);
    ShiftByteIs(d1);
    NoBurst16(d1, k);
    ShiftZero16(0);
  }

  lemma Wide0(b: Byte)
    ensures 0 ^ Wide(b) == Wide(b) && Wide(0) == 0 && Low(0) == 0 && High(0) == 0
  {
  }

  lemma BurstsShow16()
    ensures BurstsShow(Next16, 0, 2)
  {
    forall d, k: bv8 | |d| == 3 && k < 8 && Burst(d, 0, k, 2) && Fold(Next16, 0, d) == 0
      ensures AllZero(d)
    {
      FoldThree(Next16, 0, d);
      TripleShows16(d[0], d[1], d[2], k);
    }
  }

  // ----- Accepted frames -----

  const INIT8: bv8 := 0xff
  const INIT16: bv16 := 0xffff

  /** The frames that verify_crc8_check_sum accepts. */
  predicate Accepted8(f: seq<Byte>) {
    EndsInOne(Next8, INIT8, f)
  }

  predicate Accepted16(f: seq<Byte>) {
    EndsInTwo(Next16, Low, High, INIT16, f)
  }

  /** Accepted are exactly the frames above two bytes that leave no remainder, checksum
      included. */
  lemma NoRemainder8(f: seq<Byte>)
    requires |f| > 2
    ensures Accepted8(f) <==> Fold(Next8, INIT8, f) == 0
  {
    var c, b := Fold(Next8, INIT8, f[..|f| - 1]), f[|f| - 1];
    assert Fold(Next8, INIT8, f) == Next8(c, b);
    ShiftZero8(c ^ b);
    SameByte(c, b);
  }

  lemma OwnBytes(v: bv16)
    ensures Next16(Next16(v, Low(v)), High(v)) == 0
  {
    LowSum(v, Low(v));
    TopStays(v, Low(v));
    SameByte(Low(v), Low(v));
    HighStays16(v ^ Wide(Low(v)));
    Wide0(0);
    ShiftZero16(0);
    TopGone(v);
  }

  lemma TopGone(v: bv16)
    ensures Add16(v >> 8, 0) ^ Wide(High(v)) == 0
  {
  }

  lemma NoRemainder16(f: seq<Byte>)
    requires |f| > 2
    ensures Accepted16(f) <==> Fold(Next16, INIT16, f) == 0
  {
    var n := |f|;
    var c, b1, b2 := Fold(Next16, INIT16, f[..n - 2]), f[n - 2], f[n - 1];
    assert f[..n - 1][..n - 2] == f[..n - 2];
    assert Fold(Next16, INIT16, f) == Next16(Next16(c, b1), b2);
    OwnBytes(c);
    if Next16(Next16(c, b1), b2) == 0 {
      TwoBytesTo0(c, b1, b2);
    }
  }

  /** To start from all ones is to start from zero with the first bits complemented. */
  lemma PresetIs8(f: seq<Byte>, g: seq<Byte>)
    requires |f| == |g| > 0 && f[1..] == g[1..] && g[0] == f[0] ^ 0xff
    ensures Fold(Next8, 0xff, f) == Fold(Next8, 0, g)
  {
    assert 0xff ^ f[0] == 0 ^ g[0];
    FoldFromOne(Next8, 0xff, f, 0, g);
  }

  lemma OnesFirst(b: Byte)
    ensures Low(0xffff ^ Wide(b)) == b ^ 0xff && (0xffff ^ Wide(b)) >> 8 == 0xff
    ensures 0 ^ Wide(b ^ 0xff) == Wide(b ^ 0xff)
  {
  }

  lemma OnesNext(s: bv16, b: Byte)
    ensures (0xff ^ s) ^ Wide(b) == s ^ Wide(b ^ 0xff)
  {
  }

  lemma PresetFirst16(b: Byte)
    ensures Next16(0xffff, b) == 0xff ^ ShiftByte(b ^ 0xff)
    ensures Next16(0, b ^ 0xff) == ShiftByte(b ^ 0xff)
  {
    HighStays16(0xffff ^ Wide(b));
    OnesFirst(b);
  }

  lemma PresetStep16(b1: Byte, b2: Byte, c1: Byte, c2: Byte)
    requires c1 == b1 ^ 0xff && c2 == b2 ^ 0xff
    ensures Next16(Next16(0xffff, b1), b2) == Next16(Next16(0, c1), c2)
  {
    PresetFirst16(b1);
    OnesNext(ShiftByte(c1), b2);
  }

  lemma PresetIs16(f: seq<Byte>, g: seq<Byte>)
    requires |f| == |g| > 1 && f[2..] == g[2..] && g[0] == f[0] ^ 0xff && g[1] == f[1] ^ 0xff
    ensures Fold(Next16, 0xffff, f) == Fold(Next16, 0, g)
  {
    PresetStep16(f[0], f[1], g[0], g[1]);
    FoldFromTwo(Next16, 0xffff, f, 0, g);
  }

  /** Accepted are exactly the frames that leave no remainder once the first byte, for
      CRC-16 the first two, are complemented. */
  lemma AcceptedIs8(f: seq<Byte>)
    ensures forall g: seq<Byte> | |g| == |f| > 2
              && (forall i | 0 <= i < |f| :: g[i] == if i < 1 then f[i] ^ 0xff else f[i])
              :: Accepted8(f) <==> Fold(Next8, 0, g) == 0
  {
    forall g: seq<Byte> | |g| == |f| > 2
      && (forall i | 0 <= i < |f| :: g[i] == if i < 1 then f[i] ^ 0xff else f[i])
      ensures Accepted8(f) <==> Fold(Next8, 0, g) == 0
    {
      NoRemainder8(f);
      PresetIs8(f, g);
    }
  }

  lemma AcceptedIs16(f: seq<Byte>)
    ensures forall g: seq<Byte> | |g| == |f| > 2
              && (forall i | 0 <= i < |f| :: g[i] == if i < 2 then f[i] ^ 0xff else f[i])
              :: Accepted16(f) <==> Fold(Next16, 0, g) == 0
  {
    forall g: seq<Byte> | |g| == |f| > 2
      && (forall i | 0 <= i < |f| :: g[i] == if i < 2 then f[i] ^ 0xff else f[i])
      ensures Accepted16(f) <==> Fold(Next16, 0, g) == 0
    {
      NoRemainder16(f);
      PresetIs16(f, g);
    }
  }

  /** Two accepted frames of one length never differ only within eight bits in a row,
      checksum included, wherever in a byte the eight bits begin. */
  lemma DetectsBurst8(f: seq<Byte>, g: seq<Byte>, p: nat, k: bv8)
    requires Accepted8(f) && Accepted8(g) && |f| == |g| && k < 8 && Burst(Sum(f, g), p, k, 1)
    ensures f == g
  {
    NoRemainder8(f);
    NoRemainder8(g);
    NextAdds8();
    ZeroStays8();
    BurstsShow8();
    BurstTold(Next8, Add8, 0, INIT8, f, g, p, k, 1);
  }

  /** For CRC-16, sixteen bits in a row. */
  lemma DetectsBurst16(f: seq<Byte>, g: seq<Byte>, p: nat, k: bv8)
    requires Accepted16(f) && Accepted16(g) && |f| == |g| && k < 8 && Burst(Sum(f, g), p, k, 2)
    ensures f == g
  {
    NoRemainder16(f);
    NoRemainder16(g);
    NextAdds16();
    ZeroStays16();
    BurstsShow16();
    BurstTold(Next16, Add16, 0, INIT16, f, g, p, k, 2);
  }

  lemma DetectsOneByte8(f: seq<Byte>, g: seq<Byte>, p: nat)
    requires Accepted8(f) && Accepted8(g) && SameBut(f, g, p, 1)
    ensures f == g
  {
    WholeBytes(f, g, p, 1);
    DetectsBurst8(f, g, p, 0);
  }

  lemma DetectsTwoBytes16(f: seq<Byte>, g: seq<Byte>, p: nat)
    requires Accepted16(f) && Accepted16(g) && SameBut(f, g, p, 2)
    ensures f == g
  {
    WholeBytes(f, g, p, 2);
    DetectsBurst16(f, g, p, 0);
  }

  method LookUp8(i: Byte) returns (t: bv8)
    ensures t == Shift8(i)
  {
    TableIs8(i);
    t := Table8(i);
  }

  method LookUp16(i: Byte) returns (t: bv16)
    ensures t == ShiftByte(i)
  {
    TableIs16(i);
    t := Table16(i);
  }

  lemma LooksUp16(c: bv16, b: Byte, t: bv16)
    requires t == ShiftByte(Low(c ^ Wide(b)))
    ensures Next16(c, b) == (c >> 8) ^ t
  {
    TopStays(c, b);
    HighStays16(c ^ Wide(b));
  }

  /** One byte of get_crc16_check_sum: a look-up does the eight steps. */
  method NextByte16(c: bv16, b: Byte) returns (n: bv16)
    ensures n == Next16(c, b)
  {
    var t := LookUp16(Low(c ^ Wide(b)));
    LooksUp16(c, b, t);
    n := (c >> 8) ^ t;
  }

  /** get_crc8_check_sum */
  method GetCrc8(a: array<Byte>, n: nat, init: bv8) returns (crc: bv8)
    requires n <= a.Length
    ensures crc == Fold(Next8, init, a[..n])
  {
    crc := init;
    var i := 0;
    while i < n
      invariant i <= n && crc == Fold(Next8, init, a[..i])
    {
      assert a[..i + 1][..i] == a[..i];
      crc := LookUp8(crc ^ a[i]);
      i := i + 1;
    }
  }

  /** verify_crc8_check_sum: g is the frame with its first eight bits complemented. */
  method Verify8(a: array<Byte>, n: nat) returns (ok: bool)
    requires n <= a.Length
    ensures n <= 2 ==> !ok
    ensures var f := a[..n];
      forall g: seq<Byte> | |g| == |f| > 2
        && (forall i | 0 <= i < |f| :: g[i] == if i < 1 then f[i] ^ 0xff else f[i])
              :: ok <==> Fold(Next8, 0, g) == 0
    ensures ok <==> Accepted8(a[..n])
  {
    if n <= 2 {
      return false;
    }
    var expected := GetCrc8(a, n - 1, INIT8);
    assert a[..n][..n - 1] == a[..n - 1];
    ok := expected == a[n - 1];
    AcceptedIs8(a[..n]);
  }

  /** append_crc8_check_sum: what it makes of a frame is accepted. */
  method Append8(a: array<Byte>, n: nat)
    requires n <= a.Length
    modifies a
    ensures n > 2 ==> Accepted8(a[..n])
    ensures var f := a[..n];
      forall g: seq<Byte> | |g| == |f| > 2
        && (forall i | 0 <= i < |f| :: g[i] == if i < 1 then f[i] ^ 0xff else f[i])
              :: Fold(Next8, 0, g) == 0
    ensures forall i | 0 <= i < a.Length && (n <= 2 || i != n - 1) :: a[i] == old(a[i])
  {
    if n <= 2 {
      return;
    }
    var crc := GetCrc8(a, n - 1, INIT8);
    a[n - 1] := crc;
    assert a[..n][..n - 1] == old(a[..n - 1]);
    AcceptedIs8(a[..n]);
  }

  /** get_crc16_check_sum */
  method GetCrc16(a: array<Byte>, n: nat, init: bv16) returns (crc: bv16)
    requires n <= a.Length
    ensures crc == Fold(Next16, init, a[..n])
  {
    crc := init;
    var i := 0;
    while i < n
      invariant i <= n && crc == Fold(Next16, init, a[..i])
    {
      assert a[..i + 1][..i] == a[..i];
      crc := NextByte16(crc, a[i]);
      i := i + 1;
    }
  }

  /** verify_crc16_check_sum: g is the frame with its first sixteen bits complemented. */
  method Verify16(a: array<Byte>, n: nat) returns (ok: bool)
    requires n <= a.Length
    ensures n <= 2 ==> !ok
    ensures var f := a[..n];
      forall g: seq<Byte> | |g| == |f| > 2
        && (forall i | 0 <= i < |f| :: g[i] == if i < 2 then f[i] ^ 0xff else f[i])
              :: ok <==> Fold(Next16, 0, g) == 0
    ensures ok <==> Accepted16(a[..n])
  {
    if n <= 2 {
      return false;
    }
    var expected := GetCrc16(a, n - 2, INIT16);
    assert a[..n][..n - 2] == a[..n - 2];
    ok := Low(expected) == a[n - 2] && High(expected) == a[n - 1];
    AcceptedIs16(a[..n]);
  }

  /** append_crc16_check_sum */
  method Append16(a: array<Byte>, n: nat)
    requires n <= a.Length
    modifies a
    ensures n > 2 ==> Accepted16(a[..n])
    ensures var f := a[..n];
      forall g: seq<Byte> | |g| == |f| > 2
        && (forall i | 0 <= i < |f| :: g[i] == if i < 2 then f[i] ^ 0xff else f[i])
              :: Fold(Next16, 0, g) == 0
    ensures forall i | 0 <= i < a.Length && (n <= 2 || i < n - 2 || i >= n) :: a[i] == old(a[i])
  {
    if n <= 2 {
      return;
    }
    var crc := GetCrc16(a, n - 2, INIT16);
    a[n - 2], a[n - 1] := Low(crc), High(crc);
    ghost var f := a[..n];
    assert f[..n - 2] == old(a[..n - 2]);
    assert Accepted16(f);
    AcceptedIs16(f);
  }
}
