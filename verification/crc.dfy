/** The two checksums of the ZBOSS NCP link (main/utils.cpp), their bitwise meaning and what they detect.
    Bytes and registers are bit vectors here and nowhere else. */
module Crc {
  // ---- The lookup tables, sixteen entries a row -------------------------------------------------

  /** Entry `lo` of one row of crc8_table. */
  function Pick8(lo: bv8,
                 a0: bv8, a1: bv8, a2: bv8, a3: bv8, a4: bv8, a5: bv8, a6: bv8, a7: bv8,
                 a8: bv8, a9: bv8, a10: bv8, a11: bv8, a12: bv8, a13: bv8, a14: bv8, a15: bv8): bv8
  {
    if lo == 0 then a0 else if lo == 1 then a1 else if lo == 2 then a2 else
    if lo == 3 then a3 else if lo == 4 then a4 else if lo == 5 then a5 else
    if lo == 6 then a6 else if lo == 7 then a7 else if lo == 8 then a8 else
    if lo == 9 then a9 else if lo == 10 then a10 else if lo == 11 then a11 else
    if lo == 12 then a12 else if lo == 13 then a13 else if lo == 14 then a14 else
    a15
  }

  /** Entry `lo` of one row of crc16_table. */
  function Pick16(lo: bv8,
                  a0: bv16, a1: bv16, a2: bv16, a3: bv16, a4: bv16, a5: bv16, a6: bv16, a7: bv16,
                  a8: bv16, a9: bv16, a10: bv16, a11: bv16, a12: bv16, a13: bv16, a14: bv16, a15: bv16): bv16
  {
    if lo == 0 then a0 else if lo == 1 then a1 else if lo == 2 then a2 else
    if lo == 3 then a3 else if lo == 4 then a4 else if lo == 5 then a5 else
    if lo == 6 then a6 else if lo == 7 then a7 else if lo == 8 then a8 else
    if lo == 9 then a9 else if lo == 10 then a10 else if lo == 11 then a11 else
    if lo == 12 then a12 else if lo == 13 then a13 else if lo == 14 then a14 else
    a15
  }

  function Table8(i: bv8): bv8 {
    var lo := i & 0x0f;
    if i < 0x10 then Pick8(lo, 0xea, 0xd4, 0x96, 0xa8, 0x12, 0x2c, 0x6e, 0x50,
      0x7f, 0x41, 0x03, 0x3d, 0x87, 0xb9, 0xfb, 0xc5) else
    if i < 0x20 then Pick8(lo, 0xa5, 0x9b, 0xd9, 0xe7, 0x5d, 0x63, 0x21, 0x1f,
      0x30, 0x0e, 0x4c, 0x72, 0xc8, 0xf6, 0xb4, 0x8a) else
    if i < 0x30 then Pick8(lo, 0x74, 0x4a, 0x08, 0x36, 0x8c, 0xb2, 0xf0, 0xce,
      0xe1, 0xdf, 0x9d, 0xa3, 0x19, 0x27, 0x65, 0x5b) else
    if i < 0x40 then Pick8(lo, 0x3b, 0x05, 0x47, 0x79, 0xc3, 0xfd, 0xbf, 0x81,
      0xae, 0x90, 0xd2, 0xec, 0x56, 0x68, 0x2a, 0x14) else
    if i < 0x50 then Pick8(lo, 0xb3, 0x8d, 0xcf, 0xf1, 0x4b, 0x75, 0x37, 0x09,
      0x26, 0x18, 0x5a, 0x64, 0xde, 0xe0, 0xa2, 0x9c) else
    if i < 0x60 then Pick8(lo, 0xfc, 0xc2, 0x80, 0xbe, 0x04, 0x3a, 0x78, 0x46,
      0x69, 0x57, 0x15, 0x2b, 0x91, 0xaf, 0xed, 0xd3) else
    if i < 0x70 then Pick8(lo, 0x2d, 0x13, 0x51, 0x6f, 0xd5, 0xeb, 0xa9, 0x97,
      0xb8, 0x86, 0xc4, 0xfa, 0x40, 0x7e, 0x3c, 0x02) else
    if i < 0x80 then Pick8(lo, 0x62, 0x5c, 0x1e, 0x20, 0x9a, 0xa4, 0xe6, 0xd8,
      0xf7, 0xc9, 0x8b, 0xb5, 0x0f, 0x31, 0x73, 0x4d) else
    if i < 0x90 then Pick8(lo, 0x58, 0x66, 0x24, 0x1a, 0xa0, 0x9e, 0xdc, 0xe2,
      0xcd, 0xf3, 0xb1, 0x8f, 0x35, 0x0b, 0x49, 0x77) else
    if i < 0xa0 then Pick8(lo, 0x17, 0x29, 0x6b, 0x55, 0xef, 0xd1, 0x93, 0xad,
      0x82, 0xbc, 0xfe, 0xc0, 0x7a, 0x44, 0x06, 0x38) else
    if i < 0xb0 then Pick8(lo, 0xc6, 0xf8, 0xba, 0x84, 0x3e, 0x00, 0x42, 0x7c,
      0x53, 0x6d, 0x2f, 0x11, 0xab, 0x95, 0xd7, 0xe9) else
    if i < 0xc0 then Pick8(lo, 0x89, 0xb7, 0xf5, 0xcb, 0x71, 0x4f, 0x0d, 0x33,
      0x1c, 0x22, 0x60, 0x5e, 0xe4, 0xda, 0x98, 0xa6) else
    if i < 0xd0 then Pick8(lo, 0x01, 0x3f, 0x7d, 0x43, 0xf9, 0xc7, 0x85, 0xbb,
      0x94, 0xaa, 0xe8, 0xd6, 0x6c, 0x52, 0x10, 0x2e) else
    if i < 0xe0 then Pick8(lo, 0x4e, 0x70, 0x32, 0x0c, 0xb6, 0x88, 0xca, 0xf4,
      0xdb, 0xe5, 0xa7, 0x99, 0x23, 0x1d, 0x5f, 0x61) else
    if i < 0xf0 then Pick8(lo, 0x9f, 0xa1, 0xe3, 0xdd, 0x67, 0x59, 0x1b, 0x25,
      0x0a, 0x34, 0x76, 0x48, 0xf2, 0xcc, 0x8e, 0xb0) else
    Pick8(lo, 0xd0, 0xee, 0xac, 0x92, 0x28, 0x16, 0x54, 0x6a,
      0x45, 0x7b, 0x39, 0x07, 0xbd, 0x83, 0xc1, 0xff)
  }

  function Table16(i: bv8): bv16 {
    var lo := i & 0x0f;
    if i < 0x10 then Pick16(lo, 0x0000, 0x1189, 0x2312, 0x329b, 0x4624, 0x57ad, 0x6536, 0x74bf,
      0x8c48, 0x9dc1, 0xaf5a, 0xbed3, 0xca6c, 0xdbe5, 0xe97e, 0xf8f7) else
    if i < 0x20 then Pick16(lo, 0x1081, 0x0108, 0x3393, 0x221a, 0x56a5, 0x472c, 0x75b7, 0x643e,
      0x9cc9, 0x8d40, 0xbfdb, 0xae52, 0xdaed, 0xcb64, 0xf9ff, 0xe876) else
    if i < 0x30 then Pick16(lo, 0x2102, 0x308b, 0x0210, 0x1399, 0x6726, 0x76af, 0x4434, 0x55bd,
      0xad4a, 0xbcc3, 0x8e58, 0x9fd1, 0xeb6e, 0xfae7, 0xc87c, 0xd9f5) else
    if i < 0x40 then Pick16(lo, 0x3183, 0x200a, 0x1291, 0x0318, 0x77a7, 0x662e, 0x54b5, 0x453c,
      0xbdcb, 0xac42, 0x9ed9, 0x8f50, 0xfbef, 0xea66, 0xd8fd, 0xc974) else
    if i < 0x50 then Pick16(lo, 0x4204, 0x538d, 0x6116, 0x709f, 0x0420, 0x15a9, 0x2732, 0x36bb,
      0xce4c, 0xdfc5, 0xed5e, 0xfcd7, 0x8868, 0x99e1, 0xab7a, 0xbaf3) else
    if i < 0x60 then Pick16(lo, 0x5285, 0x430c, 0x7197, 0x601e, 0x14a1, 0x0528, 0x37b3, 0x263a,
      0xdecd, 0xcf44, 0xfddf, 0xec56, 0x98e9, 0x8960, 0xbbfb, 0xaa72) else
    if i < 0x70 then Pick16(lo, 0x6306, 0x728f, 0x4014, 0x519d, 0x2522, 0x34ab, 0x0630, 0x17b9,
      0xef4e, 0xfec7, 0xcc5c, 0xddd5, 0xa96a, 0xb8e3, 0x8a78, 0x9bf1) else
    if i < 0x80 then Pick16(lo, 0x7387, 0x620e, 0x5095, 0x411c, 0x35a3, 0x242a, 0x16b1, 0x0738,
      0xffcf, 0xee46, 0xdcdd, 0xcd54, 0xb9eb, 0xa862, 0x9af9, 0x8b70) else
    if i < 0x90 then Pick16(lo, 0x8408, 0x9581, 0xa71a, 0xb693, 0xc22c, 0xd3a5, 0xe13e, 0xf0b7,
      0x0840, 0x19c9, 0x2b52, 0x3adb, 0x4e64, 0x5fed, 0x6d76, 0x7cff) else
    if i < 0xa0 then Pick16(lo, 0x9489, 0x8500, 0xb79b, 0xa612, 0xd2ad, 0xc324, 0xf1bf, 0xe036,
      0x18c1, 0x0948, 0x3bd3, 0x2a5a, 0x5ee5, 0x4f6c, 0x7df7, 0x6c7e) else
    if i < 0xb0 then Pick16(lo, 0xa50a, 0xb483, 0x8618, 0x9791, 0xe32e, 0xf2a7, 0xc03c, 0xd1b5,
      0x2942, 0x38cb, 0x0a50, 0x1bd9, 0x6f66, 0x7eef, 0x4c74, 0x5dfd) else
    if i < 0xc0 then Pick16(lo, 0xb58b, 0xa402, 0x9699, 0x8710, 0xf3af, 0xe226, 0xd0bd, 0xc134,
      0x39c3, 0x284a, 0x1ad1, 0x0b58, 0x7fe7, 0x6e6e, 0x5cf5, 0x4d7c) else
    if i < 0xd0 then Pick16(lo, 0xc60c, 0xd785, 0xe51e, 0xf497, 0x8028, 0x91a1, 0xa33a, 0xb2b3,
      0x4a44, 0x5bcd, 0x6956, 0x78df, 0x0c60, 0x1de9, 0x2f72, 0x3efb) else
    if i < 0xe0 then Pick16(lo, 0xd68d, 0xc704, 0xf59f, 0xe416, 0x90a9, 0x8120, 0xb3bb, 0xa232,
      0x5ac5, 0x4b4c, 0x79d7, 0x685e, 0x1ce1, 0x0d68, 0x3ff3, 0x2e7a) else
    if i < 0xf0 then Pick16(lo, 0xe70e, 0xf687, 0xc41c, 0xd595, 0xa12a, 0xb0a3, 0x8238, 0x93b1,
      0x6b46, 0x7acf, 0x4854, 0x59dd, 0x2d62, 0x3ceb, 0x0e70, 0x1ff9) else
    Pick16(lo, 0xf78f, 0xe606, 0xd49d, 0xc514, 0xb1ab, 0xa022, 0x92b9, 0x8330,
      0x7bc7, 0x6a4e, 0x58d5, 0x495c, 0x3de3, 0x2c6a, 0x1ef1, 0x0f78)
  }

  // ---- The loops of crc8 and crc16 --------------------------------------------------------------

  function Xor8(a: bv8, b: bv8): bv8 { a ^ b }

  function Xor16(a: bv16, b: bv16): bv16 { a ^ b }

  function Wide(b: bv8): bv16 { b as bv16 }

  /** One pass through the loop of crc8. */
  function Step8(crc: bv8, b: bv8): bv8 {
    Table8(crc ^ b)
  }

  /** The table index and the surviving high byte of one pass through the loop of crc16. */
  function Low16(crc: bv16, b: bv8): bv8 { ((crc ^ (b as bv16)) & 0xff) as bv8 }

  function High16(crc: bv16): bv16 { (crc >> 8) & 0xff }

  /** One pass through the loop of crc16. */
  function Step16(crc: bv16, b: bv8): bv16 {
    Xor16(Table16(Low16(crc, b)), High16(crc))
  }

  /** The register after `data`, started from `crc`. */
  function Run8(crc: bv8, data: seq<bv8>): bv8 {
    if data == [] then crc else Step8(Run8(crc, data[..|data| - 1]), data[|data| - 1])
  }

  function Run16(crc: bv16, data: seq<bv8>): bv16 {
    if data == [] then crc else Step16(Run16(crc, data[..|data| - 1]), data[|data| - 1])
  }

  /** utils::crc8, the copy in html/zboss_backup.js and the one in test/bind_table_tool.py. */
  method ComputeCrc8(data: seq<bv8>) returns (crc: bv8)
    ensures crc == Run8(0x00, data)
  {
    hide Step8;
    crc := 0x00;
    var i := 0;
    while i != |data|
      invariant 0 <= i <= |data|
      invariant crc == Run8(0x00, data[..i])
    {
      assert data[..i + 1][..i] == data[..i];
      crc := Step8(crc, data[i]);
      i := i + 1;
    }
    assert data[..i] == data;
  }

  /** utils::crc16 and the copy in html/zboss_backup.js. */
  method ComputeCrc16(data: seq<bv8>) returns (crc: bv16)
    ensures crc == Run16(0x0000, data)
  {
    hide Step16;
    crc := 0x0000;
    var i := 0;
    while i != |data|
      invariant 0 <= i <= |data|
      invariant crc == Run16(0x0000, data[..i])
    {
      assert data[..i + 1][..i] == data[..i];
      crc := Step16(crc, data[i]);
      i := i + 1;
    }
    assert data[..i] == data;
  }

  // ---- The simple forms: one bit at a time ------------------------------------------------------

  /** Division by the reflected polynomial 0x4d (0xb2): the bit shifted out decides whether it is added. */
  function Bit8(c: bv8): bv8 {
    (c >> 1) ^ ((0 - (c & 1)) & 0xb2)
  }

  function Byte8(c: bv8): bv8 {
    Bit8(Bit8(Bit8(Bit8(Bit8(Bit8(Bit8(Bit8(c))))))))
  }

  /** Division by the reflected polynomial 0x1021 (0x8408). */
  function Bit16(c: bv16): bv16 {
    (c >> 1) ^ ((0 - (c & 1)) & 0x8408)
  }

  function Byte16(c: bv16): bv16 {
    Bit16(Bit16(Bit16(Bit16(Bit16(Bit16(Bit16(Bit16(c))))))))
  }

  function Bits16(c: bv16, n: nat): bv16
    decreases n
  {
    if n == 0 then c else Bits16(Bit16(c), n - 1)
  }

  /** CRC-8/KOOP before its final inversion: register preset to 0xff. */
  function Koop(data: seq<bv8>): bv8 {
    if data == [] then 0xff else Byte8(Xor8(Koop(data[..|data| - 1]), data[|data| - 1]))
  }

  /** CRC-16/KERMIT: register preset to 0, no final inversion. */
  function Kermit(data: seq<bv8>): bv16 {
    if data == [] then 0 else Byte16(Xor16(Kermit(data[..|data| - 1]), Wide(data[|data| - 1])))
  }

  /** crc16 of test/bind_table_tool.py: eight division steps a byte and no table. */
  method BitwiseCrc16(data: seq<bv8>) returns (crc: bv16)
    ensures crc == Kermit(data)
  {
    hide Bit16, Byte16, Xor16;
    crc := 0;
    var i := 0;
    while i != |data|
      invariant 0 <= i <= |data|
      invariant crc == Kermit(data[..i])
    {
      assert data[..i + 1][..i] == data[..i];
      crc := Xor16(crc, Wide(data[i]));
      ghost var start := crc;
      var k := 0;
      while k < 8
        invariant 0 <= k <= 8
        invariant Bits16(crc, 8 - k) == Bits16(start, 8)
      {
        Bit16Branches(crc);
        crc := if crc & 1 == 1 then (crc >> 1) ^ 0x8408 else crc >> 1;
        k := k + 1;
      }
      EightBits(start);
      i := i + 1;
    }
    assert data[..i] == data;
  }

  /** The branch of the Python loop is the masked addition. */
  lemma Bit16Branches(c: bv16)
    ensures Bit16(c) == if c & 1 == 1 then (c >> 1) ^ 0x8408 else c >> 1
  {
    var low := c & 1;
    assert low == 0 || low == 1;
    assert (0 - low) & 0x8408 == if low == 1 then 0x8408 else 0;
  }

  lemma EightBits(c: bv16)
    ensures Bits16(c, 8) == Byte16(c)
  {
    hide Bit16;
    var c2 := Bit16(Bit16(c));
    var c4 := Bit16(Bit16(c2));
    var c6 := Bit16(Bit16(c4));
    assert Bits16(c6, 2) == Byte16(c);
    assert Bits16(c4, 4) == Byte16(c);
    assert Bits16(c2, 6) == Byte16(c);
  }

  // ---- The tables compute the simple forms ------------------------------------------------------

  lemma Table16Rows0(i: bv8)
    requires i < 0x40
    ensures Table16(i) == Byte16(Wide(i))
  {
  }

  lemma Table16Rows4(i: bv8)
    requires 0x40 <= i < 0x80
    ensures Table16(i) == Byte16(Wide(i))
  {
  }

  lemma Table16Rows8(i: bv8)
    requires 0x80 <= i < 0xc0
    ensures Table16(i) == Byte16(Wide(i))
  {
  }

  lemma Table16RowsC(i: bv8)
    requires 0xc0 <= i
    ensures Table16(i) == Byte16(Wide(i))
  {
  }

  /** Every entry of crc16_table is the remainder of its index. */
  lemma Table16Entry(i: bv8)
    ensures Table16(i) == Byte16(Wide(i))
  {
    hide Table16, Byte16, Wide;
    if i < 0x40 {
      Table16Rows0(i);
    } else if i < 0x80 {
      Table16Rows4(i);
    } else if i < 0xc0 {
      Table16Rows8(i);
    } else {
      Table16RowsC(i);
    }
  }

  /** Without a bit in the low byte nothing is ever added. */
  lemma HighByteShifts(high: bv16)
    requires high & 0xff == 0
    ensures Byte16(high) == high >> 8
  {
    hide Bit16;
    EvenShifts(high);
    EvenShifts(high >> 1);
    EvenShifts(high >> 2);
    EvenShifts(high >> 3);
    EvenShifts(high >> 4);
    EvenShifts(high >> 5);
    EvenShifts(high >> 6);
    EvenShifts(high >> 7);
  }

  lemma EvenShifts(c: bv16)
    ensures c & 1 == 0 ==> Bit16(c) == c >> 1
  {
    Bit16Branches(c);
  }

  lemma Byte16Split(x: bv16)
    ensures Byte16(x) == Xor16(Byte16(x & 0xff), x >> 8)
  {
    hide Byte16;
    var low, high := x & 0xff, x & 0xff00;
    assert x == Xor16(low, high);
    assert high & 0xff == 0 && high >> 8 == x >> 8;
    Byte16Linear(low, high);
    HighByteShifts(high);
  }

  /** The low byte of the register goes through the division, the high byte is shifted down unchanged. */
  lemma Byte16Halves(c: bv16, b: bv8)
    ensures Byte16(Xor16(c, Wide(b))) == Xor16(Byte16(Wide(Low16(c, b))), High16(c))
  {
    hide Byte16;
    var x := Xor16(c, Wide(b));
    Byte16Split(x);
    assert Wide(Low16(c, b)) == x & 0xff;
    assert High16(c) == x >> 8;
  }

  lemma Table8Rows0(i: bv8)
    requires i < 0x40
    ensures Table8(i) == Xor8(Byte8(Xor8(i, 0xff)), 0xff)
  {
  }

  lemma Table8Rows4(i: bv8)
    requires 0x40 <= i < 0x80
    ensures Table8(i) == Xor8(Byte8(Xor8(i, 0xff)), 0xff)
  {
  }

  lemma Table8Rows8(i: bv8)
    requires 0x80 <= i < 0xc0
    ensures Table8(i) == Xor8(Byte8(Xor8(i, 0xff)), 0xff)
  {
  }

  lemma Table8RowsC(i: bv8)
    requires 0xc0 <= i
    ensures Table8(i) == Xor8(Byte8(Xor8(i, 0xff)), 0xff)
  {
  }

  lemma Table8Entry(i: bv8)
    ensures Table8(i) == Xor8(Byte8(Xor8(i, 0xff)), 0xff)
  {
    hide Table8, Byte8, Xor8;
    if i < 0x40 {
      Table8Rows0(i);
    } else if i < 0x80 {
      Table8Rows4(i);
    } else if i < 0xc0 {
      Table8Rows8(i);
    } else {
      Table8RowsC(i);
    }
  }

  /** Every entry of crc8_table is the KOOP remainder of its index with both inversions folded in. */
  lemma Table8IsFoldedKoop(c: bv8, b: bv8)
    ensures Step8(c, b) == Xor8(Byte8(Xor8(Xor8(c, 0xff), b)), 0xff)
  {
    hide Table8, Byte8;
    Table8Entry(c ^ b);
    assert Xor8(c ^ b, 0xff) == Xor8(Xor8(c, 0xff), b);
  }

  lemma Table16IsKermit(c: bv16, b: bv8)
    ensures Step16(c, b) == Byte16(Xor16(c, Wide(b)))
  {
    hide Table16, Byte16, Xor16, Low16, High16, Wide;
    Table16Entry(Low16(c, b));
    Byte16Halves(c, b);
  }

  /** crc8 with its folded table and start value 0 is CRC-8/KOOP (init 0xff, xorout 0xff) at every length. */
  lemma {:induction false} Crc8IsKoop(data: seq<bv8>)
    ensures Run8(0x00, data) == Xor8(Koop(data), 0xff)
  {
    hide Step8, Byte8;
    if data != [] {
      var n := |data| - 1;
      Crc8IsKoop(data[..n]);
      var c := Koop(data[..n]);
      Table8IsFoldedKoop(Xor8(c, 0xff), data[n]);
      assert Xor8(Xor8(c, 0xff), 0xff) == c;
    }
  }

  /** The table-driven crc16 computes the bitwise one at every length. */
  lemma {:induction false} Crc16IsKermit(data: seq<bv8>)
    ensures Run16(0x0000, data) == Kermit(data)
  {
    hide Step16, Byte16, Xor16, Wide;
    if data != [] {
      var n := |data| - 1;
      Crc16IsKermit(data[..n]);
      Table16IsKermit(Run16(0x0000, data[..n]), data[n]);
    }
  }

  // ---- What a changed byte does -----------------------------------------------------------------

  lemma Byte8Injective(c: bv8, d: bv8)
    requires Byte8(c) == Byte8(d)
    ensures c == d
  {
  }

  lemma Byte16Injective(c: bv16, d: bv16)
    requires Byte16(c) == Byte16(d)
    ensures c == d
  {
  }

  /** The CRC-8 step loses nothing: equal results come from equal sums of register and byte. */
  lemma Step8Injective(c: bv8, d: bv8, a: bv8, b: bv8)
    requires Step8(c, a) == Step8(d, b)
    ensures Xor8(c, a) == Xor8(d, b)
  {
    hide Step8, Byte8;
    Table8IsFoldedKoop(c, a);
    Table8IsFoldedKoop(d, b);
    var x, y := Xor8(Xor8(c, 0xff), a), Xor8(Xor8(d, 0xff), b);
    assert Byte8(x) == Byte8(y);
    Byte8Injective(x, y);
  }

  /** The CRC-16 step is injective in the register. */
  lemma Step16Injective(c: bv16, d: bv16, b: bv8)
    requires Step16(c, b) == Step16(d, b)
    ensures c == d
  {
    hide Step16, Byte16;
    Table16IsKermit(c, b);
    Table16IsKermit(d, b);
    Byte16Injective(Xor16(c, Wide(b)), Xor16(d, Wide(b)));
  }

  lemma {:induction false} Run8Split(crc: bv8, a: seq<bv8>, b: seq<bv8>)
    ensures Run8(crc, a + b) == Run8(Run8(crc, a), b)
  {
    hide Step8;
    if b == [] {
      assert a + b == a;
    } else {
      var n := |b| - 1;
      assert (a + b)[..|a + b| - 1] == a + b[..n];
      Run8Split(crc, a, b[..n]);
    }
  }

  lemma {:induction false} Run16Split(crc: bv16, a: seq<bv8>, b: seq<bv8>)
    ensures Run16(crc, a + b) == Run16(Run16(crc, a), b)
  {
    hide Step16;
    if b == [] {
      assert a + b == a;
    } else {
      var n := |b| - 1;
      assert (a + b)[..|a + b| - 1] == a + b[..n];
      Run16Split(crc, a, b[..n]);
    }
  }

  lemma {:induction false} Run8Injective(c: bv8, d: bv8, tail: seq<bv8>)
    requires Run8(c, tail) == Run8(d, tail)
    ensures c == d
  {
    hide Step8, Xor8;
    if tail != [] {
      var n := |tail| - 1;
      Step8Injective(Run8(c, tail[..n]), Run8(d, tail[..n]), tail[n], tail[n]);
      Xor8Cancels(Run8(c, tail[..n]), Run8(d, tail[..n]), tail[n]);
      Run8Injective(c, d, tail[..n]);
    }
  }

  lemma Xor8Cancels(a: bv8, b: bv8, c: bv8)
    ensures Xor8(a, c) == Xor8(b, c) ==> a == b
    ensures Xor8(c, a) == Xor8(c, b) ==> a == b
  {
  }

  lemma {:induction false} Run16Injective(c: bv16, d: bv16, tail: seq<bv8>)
    requires Run16(c, tail) == Run16(d, tail)
    ensures c == d
  {
    hide Step16;
    if tail != [] {
      var n := |tail| - 1;
      Step16Injective(Run16(c, tail[..n]), Run16(d, tail[..n]), tail[n]);
      Run16Injective(c, d, tail[..n]);
    }
  }

  lemma Run8One(c: bv8, a: bv8)
    ensures Run8(c, [a]) == Step8(c, a)
  {
    hide Step8;
    assert [a][..0] == [];
  }

  /** Changing any single byte of a message of any length changes its CRC-8. */
  lemma Crc8CatchesOneByte(head: seq<bv8>, a: bv8, b: bv8, tail: seq<bv8>)
    requires a != b
    ensures Run8(0x00, head + [a] + tail) != Run8(0x00, head + [b] + tail)
  {
    hide Step8, Run8, Xor8;
    var c := Run8(0x00, head);
    Run8Split(0x00, head + [a], tail);
    Run8Split(0x00, head + [b], tail);
    Run8Split(0x00, head, [a]);
    Run8Split(0x00, head, [b]);
    Run8One(c, a);
    Run8One(c, b);
    if Run8(0x00, head + [a] + tail) == Run8(0x00, head + [b] + tail) {
      Run8Injective(Step8(c, a), Step8(c, b), tail);
      Step8Injective(c, c, a, b);
      Xor8Cancels(a, b, c);
    }
  }

  // ---- Bursts: a change of at most sixteen consecutive bits -------------------------------------

  lemma Bit16Linear(c: bv16, d: bv16)
    ensures Bit16(Xor16(c, d)) == Xor16(Bit16(c), Bit16(d))
  {
  }

  /** The remainder of a sum is the sum of the remainders. */
  lemma Byte16Linear(c: bv16, d: bv16)
    ensures Byte16(Xor16(c, d)) == Xor16(Byte16(c), Byte16(d))
  {
    hide Bit16, Xor16;
    var c1, d1 := Bit16(c), Bit16(d);
    var c2, d2 := Bit16(c1), Bit16(d1);
    var c3, d3 := Bit16(c2), Bit16(d2);
    var c4, d4 := Bit16(c3), Bit16(d3);
    var c5, d5 := Bit16(c4), Bit16(d4);
    var c6, d6 := Bit16(c5), Bit16(d5);
    var c7, d7 := Bit16(c6), Bit16(d6);
    Bit16Linear(c, d);
    Bit16Linear(c1, d1);
    Bit16Linear(c2, d2);
    Bit16Linear(c3, d3);
    Bit16Linear(c4, d4);
    Bit16Linear(c5, d5);
    Bit16Linear(c6, d6);
    Bit16Linear(c7, d7);
  }

  lemma Xor16Shuffle(c: bv16, d: bv16, a: bv16, b: bv16)
    ensures Xor16(Xor16(c, a), Xor16(d, b)) == Xor16(Xor16(c, d), Xor16(a, b))
    ensures Xor16(Xor16(c, a), Xor16(c, b)) == Xor16(a, b)
  {
  }

  lemma Xor16Self(c: bv16)
    ensures Xor16(c, c) == 0
  {
  }

  /** How a difference in the register and in the next byte travels through one step. */
  lemma DifferenceStep(c: bv16, d: bv16, a: bv16, b: bv16)
    ensures Xor16(Byte16(Xor16(c, a)), Byte16(Xor16(d, b))) == Byte16(Xor16(Xor16(c, d), Xor16(a, b)))
  {
    hide Byte16, Xor16;
    Byte16Linear(Xor16(c, a), Xor16(d, b));
    Xor16Shuffle(c, d, a, b);
  }

  /** The register three bytes after `c`. */
  function Three16(c: bv16, a0: bv16, a1: bv16, a2: bv16): bv16 {
    Byte16(Xor16(Byte16(Xor16(Byte16(Xor16(c, a0)), a1)), a2))
  }

  /** Two messages that start from one register differ, three bytes on, by the remainder of their difference. */
  lemma ThreeByteDifference(c: bv16, a0: bv16, a1: bv16, a2: bv16, b0: bv16, b1: bv16, b2: bv16)
    ensures Xor16(Three16(c, a0, a1, a2), Three16(c, b0, b1, b2))
         == Byte16(Xor16(Byte16(Xor16(Byte16(Xor16(a0, b0)), Xor16(a1, b1))), Xor16(a2, b2)))
  {
    hide Byte16, Xor16;
    var c1, d1 := Byte16(Xor16(c, a0)), Byte16(Xor16(c, b0));
    var c2, d2 := Byte16(Xor16(c1, a1)), Byte16(Xor16(d1, b1));
    DifferenceStep(c2, d2, a2, b2);
    DifferenceStep(c1, d1, a1, b1);
    Byte16Linear(Xor16(c, a0), Xor16(c, b0));
    Xor16Shuffle(c, c, a0, b0);
  }

  /** The differing bits of three bytes, the first byte lowest, lie between bit `k` and bit `k + 15`. */
  predicate Burst(d0: bv8, d1: bv8, d2: bv8, k: nat)
    requires k <= 8
  {
    var d := (d0 as bv24) | ((d1 as bv24) << 8) | ((d2 as bv24) << 16);
    (d >> k) << k == d && d >> k <= 0xffff
  }

  lemma Byte16Zero(c: bv16)
    requires Byte16(c) == 0
    ensures c == 0
  {
  }

  /** A burst of at most sixteen bits never divides to a zero remainder. */
  lemma BurstRemainder(d0: bv8, d1: bv8, d2: bv8, k: nat)
    requires k <= 8 && Burst(d0, d1, d2, k)
    requires Byte16(Xor16(Byte16(Xor16(Byte16(Wide(d0)), Wide(d1))), Wide(d2))) == 0
    ensures d0 == 0 && d1 == 0 && d2 == 0
  {
    Byte16Zero(Xor16(Byte16(Xor16(Byte16(Wide(d0)), Wide(d1))), Wide(d2)));
    if k == 0 {} else if k == 1 {} else if k == 2 {} else if k == 3 {} else if k == 4 {}
    else if k == 5 {} else if k == 6 {} else if k == 7 {} else {}
  }

  lemma Run16Three(c: bv16, a: seq<bv8>)
    requires |a| == 3
    ensures Run16(c, a) == Three16(c, Wide(a[0]), Wide(a[1]), Wide(a[2]))
  {
    hide Step16, Byte16, Xor16, Wide;
    assert a[..2][..1] == a[..1] && a[..1][..0] == [];
    var c1 := Step16(c, a[0]);
    var c2 := Step16(c1, a[1]);
    assert Run16(c, a[..1]) == c1;
    assert Run16(c, a[..2]) == c2;
    Table16IsKermit(c, a[0]);
    Table16IsKermit(c1, a[1]);
    Table16IsKermit(c2, a[2]);
  }

  lemma Widen(a: bv8, b: bv8)
    ensures Xor16(Wide(a), Wide(b)) == Wide(Xor8(a, b))
  {
  }

  lemma Xor8Zero(a: bv8, b: bv8)
    ensures Xor8(a, b) == 0 ==> a == b
  {
  }

  /** Three bytes that differ within a burst never bring one register to the same value. */
  lemma SameAfterBurst(c: bv16, a: seq<bv8>, b: seq<bv8>, k: nat)
    requires |a| == 3 && |b| == 3
    requires k <= 8 && Burst(Xor8(a[0], b[0]), Xor8(a[1], b[1]), Xor8(a[2], b[2]), k)
    requires Run16(c, a) == Run16(c, b)
    ensures a == b
  {
    hide Run16, Byte16, Xor16, Xor8, Three16, Burst, Wide;
    var d0, d1, d2 := Xor8(a[0], b[0]), Xor8(a[1], b[1]), Xor8(a[2], b[2]);
    assert Byte16(Xor16(Byte16(Xor16(Byte16(Wide(d0)), Wide(d1))), Wide(d2))) == 0 by {
      Run16Three(c, a);
      Run16Three(c, b);
      Xor16Self(Run16(c, a));
      ThreeByteDifference(c, Wide(a[0]), Wide(a[1]), Wide(a[2]), Wide(b[0]), Wide(b[1]), Wide(b[2]));
      Widen(a[0], b[0]);
      Widen(a[1], b[1]);
      Widen(a[2], b[2]);
    }
    BurstRemainder(d0, d1, d2, k);
    Xor8Zero(a[0], b[0]);
    Xor8Zero(a[1], b[1]);
    Xor8Zero(a[2], b[2]);
  }

  /** Any change confined to sixteen consecutive bits of a message of any length changes its CRC-16;
      two neighbouring bytes are the case k == 0 with an unchanged third byte. */
  lemma Crc16CatchesBurst(head: seq<bv8>, a: seq<bv8>, b: seq<bv8>, tail: seq<bv8>, k: nat)
    requires |a| == 3 && |b| == 3 && a != b
    requires k <= 8 && Burst(Xor8(a[0], b[0]), Xor8(a[1], b[1]), Xor8(a[2], b[2]), k)
    ensures Run16(0x0000, head + a + tail) != Run16(0x0000, head + b + tail)
  {
    hide Run16, Byte16, Xor16, Xor8, Three16, Burst, Wide;
    var c := Run16(0x0000, head);
    Run16Split(0x0000, head + a, tail);
    Run16Split(0x0000, head + b, tail);
    Run16Split(0x0000, head, a);
    Run16Split(0x0000, head, b);
    if Run16(0x0000, head + a + tail) == Run16(0x0000, head + b + tail) {
      Run16Injective(Run16(c, a), Run16(c, b), tail);
      SameAfterBurst(c, a, b, k);
    }
  }

  /** Changing at most two neighbouring bytes of a message of any length changes its CRC-16. */
  lemma Crc16CatchesTwoBytes(head: seq<bv8>, a: seq<bv8>, b: seq<bv8>, tail: seq<bv8>)
    requires |a| == 2 && |b| == 2 && a != b
    ensures Run16(0x0000, head + a + tail) != Run16(0x0000, head + b + tail)
  {
    hide Run16, Byte16, Xor16, Three16;
    var c := Run16(0x0000, head);
    Run16Split(0x0000, head + a, tail);
    Run16Split(0x0000, head + b, tail);
    Run16Split(0x0000, head, a);
    Run16Split(0x0000, head, b);
    if Run16(0x0000, head + a + tail) == Run16(0x0000, head + b + tail) {
      Run16Injective(Run16(c, a), Run16(c, b), tail);
      Run16Split(c, a, [0x00]);
      Run16Split(c, b, [0x00]);
      assert (a + [0x00])[..2] == a && (b + [0x00])[..2] == b;
      SameAfterBurst(c, a + [0x00], b + [0x00], 0);
    }
  }

  // ---- The checksums written out in the firmware ------------------------------------------------

  lemma Run8More(crc: bv8, data: seq<bv8>, b: bv8)
    ensures Run8(crc, data + [b]) == Step8(Run8(crc, data), b)
    ensures Run8(crc, []) == crc
  {
    hide Step8;
    assert (data + [b])[..|data|] == data;
  }

  lemma Run16More(crc: bv16, data: seq<bv8>, b: bv8)
    ensures Run16(crc, data + [b]) == Step16(Run16(crc, data), b)
    ensures Run16(crc, []) == crc
  {
    hide Step16;
    assert (data + [b])[..|data|] == data;
  }

  lemma Run8OfFour(a: bv8, b: bv8, c: bv8, d: bv8)
    ensures Run8(0x00, [a, b, c, d]) == Step8(Step8(Step8(Step8(0x00, a), b), c), d)
  {
    hide Step8, Run8;
    Run8More(0x00, [], a);
    Run8More(0x00, [a], b);
    Run8More(0x00, [a, b], c);
    Run8More(0x00, [a, b, c], d);
    assert [] + [a] == [a] && [a] + [b] == [a, b] && [a, b] + [c] == [a, b, c] && [a, b, c] + [d] == [a, b, c, d];
  }

  lemma AckSteps()
    ensures Step8(0x00, 0x05) == 0x2c && Step8(0x2c, 0x00) == 0x19 && Step8(0x19, 0x06) == 0x8a
    ensures Step8(0x8a, 0x01) == 0x8f
  {
  }

  lemma ReadySteps()
    ensures Step8(0x00, 0x0e) == 0xfb && Step8(0xfb, 0x00) == 0x07 && Step8(0x07, 0x06) == 0xd4
    ensures Step8(0xd4, 0xc0) == 0x5d
  {
  }

  lemma BodySteps()
    ensures Step16(0x0000, 0x00) == 0x0000 && Step16(0x0000, 0x01) == 0x1189 && Step16(0x1189, 0x02) == 0x3aca
    ensures Step16(0x3aca, 0x00) == 0x696c && Step16(0x696c, 0xff) == 0xa67b && Step16(0xa67b, 0x00) == 0xcdf2
    ensures Step16(0xcdf2, 0x00) == 0xd450
  {
  }

  /** The three checksums that the two start-up frames carry as constants are right. */
  lemma StartUpChecksums()
    ensures Run8(0x00, [0x05, 0x00, 0x06, 0x01]) == 0x8f
    ensures Run8(0x00, [0x0e, 0x00, 0x06, 0xc0]) == 0x5d
    ensures Run16(0x0000, [0x00, 0x01, 0x02, 0x00, 0xff, 0x00, 0x00]) == 0xd450
  {
    hide Step8, Run8, Step16, Run16;
    AckSteps();
    ReadySteps();
    BodySteps();
    Run8OfFour(0x05, 0x00, 0x06, 0x01);
    Run8OfFour(0x0e, 0x00, 0x06, 0xc0);
    var body: seq<bv8> := [0x00, 0x01, 0x02, 0x00, 0xff, 0x00, 0x00];
    RunPrefixes(body);
    assert body[..7] == body;
  }

  lemma RunPrefixes(body: seq<bv8>)
    requires |body| == 7
    ensures Run16(0x0000, body[..7])
         == Step16(Step16(Step16(Step16(Step16(Step16(Step16(0x0000, body[0]), body[1]), body[2]), body[3]), body[4]),
                          body[5]), body[6])
  {
    hide Step16, Run16;
    forall i: nat | i < 7
      ensures Run16(0x0000, body[..i + 1]) == Step16(Run16(0x0000, body[..i]), body[i])
    {
      assert body[..i] + [body[i]] == body[..i + 1];
      Run16More(0x0000, body[..i], body[i]);
    }
    assert body[..0] == [];
    Run16More(0x0000, [], 0x00);
    assert Run16(0x0000, body[..1]) == Step16(0x0000, body[0]) by { assert body[..0 + 1] == body[..1]; }
  }
}
