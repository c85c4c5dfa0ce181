/** CRC-32 as the FINGERPRINT attribute uses it: a table-driven fold, proved equal to
    the bit-at-a-time definition with the reflected polynomial 0xEDB88320. */
module Crc32 {
  import opened Bytes

  const POLYNOMIAL: bv32 := 0xEDB88320
  const ONES: bv32 := 0xFFFF_FFFF
  const FINGERPRINT_XOR: bv32 := 0x5354554E

  // Named bit operations keep the proofs below free of bit-level reasoning.

  function Xor(a: bv32, b: bv32): bv32 {
    a ^ b
  }

  function Widen(v: byte): bv32 {
    v as bv32
  }

  function LowByteOf(x: bv32): byte {
    (x & 0xFF) as bv8
  }

  function DropByte(x: bv32): bv32 {
    x >> 8
  }

  // ---- Reference definition: one bit at a time ----

  function BitStep(crc: bv32): bv32 {
    if crc & 1 == 1 then Xor(crc >> 1, POLYNOMIAL) else crc >> 1
  }

  function EightSteps(crc: bv32): bv32 {
    BitStep(BitStep(BitStep(BitStep(BitStep(BitStep(BitStep(BitStep(crc))))))))
  }

  function BitwiseFold(data: Bytes, crc: bv32): bv32 {
    if data == [] then crc else BitwiseFold(data[1..], EightSteps(Xor(crc, Widen(data[0]))))
  }

  /** The checksum by its definition. */
  function Reference(data: Bytes): bv32 {
    Xor(BitwiseFold(data, ONES), ONES)
  }

  // ---- The table form ----

  const ROW_0: seq<bv32> :=
    [0x00000000, 0x77073096, 0xee0e612c, 0x990951ba, 0x076dc419, 0x706af48f, 0xe963a535, 0x9e6495a3,
     0x0edb8832, 0x79dcb8a4, 0xe0d5e91e, 0x97d2d988, 0x09b64c2b, 0x7eb17cbd, 0xe7b82d07, 0x90bf1d91]
  const ROW_1: seq<bv32> :=
    [0x1db71064, 0x6ab020f2, 0xf3b97148, 0x84be41de, 0x1adad47d, 0x6ddde4eb, 0xf4d4b551, 0x83d385c7,
     0x136c9856, 0x646ba8c0, 0xfd62f97a, 0x8a65c9ec, 0x14015c4f, 0x63066cd9, 0xfa0f3d63, 0x8d080df5]
  const ROW_2: seq<bv32> :=
    [0x3b6e20c8, 0x4c69105e, 0xd56041e4, 0xa2677172, 0x3c03e4d1, 0x4b04d447, 0xd20d85fd, 0xa50ab56b,
     0x35b5a8fa, 0x42b2986c, 0xdbbbc9d6, 0xacbcf940, 0x32d86ce3, 0x45df5c75, 0xdcd60dcf, 0xabd13d59]
  const ROW_3: seq<bv32> :=
    [0x26d930ac, 0x51de003a, 0xc8d75180, 0xbfd06116, 0x21b4f4b5, 0x56b3c423, 0xcfba9599, 0xb8bda50f,
     0x2802b89e, 0x5f058808, 0xc60cd9b2, 0xb10be924, 0x2f6f7c87, 0x58684c11, 0xc1611dab, 0xb6662d3d]
  const ROW_4: seq<bv32> :=
    [0x76dc4190, 0x01db7106, 0x98d220bc, 0xefd5102a, 0x71b18589, 0x06b6b51f, 0x9fbfe4a5, 0xe8b8d433,
     0x7807c9a2, 0x0f00f934, 0x9609a88e, 0xe10e9818, 0x7f6a0dbb, 0x086d3d2d, 0x91646c97, 0xe6635c01]
  const ROW_5: seq<bv32> :=
    [0x6b6b51f4, 0x1c6c6162, 0x856530d8, 0xf262004e, 0x6c0695ed, 0x1b01a57b, 0x8208f4c1, 0xf50fc457,
     0x65b0d9c6, 0x12b7e950, 0x8bbeb8ea, 0xfcb9887c, 0x62dd1ddf, 0x15da2d49, 0x8cd37cf3, 0xfbd44c65]
  const ROW_6: seq<bv32> :=
    [0x4db26158, 0x3ab551ce, 0xa3bc0074, 0xd4bb30e2, 0x4adfa541, 0x3dd895d7, 0xa4d1c46d, 0xd3d6f4fb,
     0x4369e96a, 0x346ed9fc, 0xad678846, 0xda60b8d0, 0x44042d73, 0x33031de5, 0xaa0a4c5f, 0xdd0d7cc9]
  const ROW_7: seq<bv32> :=
    [0x5005713c, 0x270241aa, 0xbe0b1010, 0xc90c2086, 0x5768b525, 0x206f85b3, 0xb966d409, 0xce61e49f,
     0x5edef90e, 0x29d9c998, 0xb0d09822, 0xc7d7a8b4, 0x59b33d17, 0x2eb40d81, 0xb7bd5c3b, 0xc0ba6cad]
  const ROW_8: seq<bv32> :=
    [0xedb88320, 0x9abfb3b6, 0x03b6e20c, 0x74b1d29a, 0xead54739, 0x9dd277af, 0x04db2615, 0x73dc1683,
     0xe3630b12, 0x94643b84, 0x0d6d6a3e, 0x7a6a5aa8, 0xe40ecf0b, 0x9309ff9d, 0x0a00ae27, 0x7d079eb1]
  const ROW_9: seq<bv32> :=
    [0xf00f9344, 0x8708a3d2, 0x1e01f268, 0x6906c2fe, 0xf762575d, 0x806567cb, 0x196c3671, 0x6e6b06e7,
     0xfed41b76, 0x89d32be0, 0x10da7a5a, 0x67dd4acc, 0xf9b9df6f, 0x8ebeeff9, 0x17b7be43, 0x60b08ed5]
  const ROW_A: seq<bv32> :=
    [0xd6d6a3e8, 0xa1d1937e, 0x38d8c2c4, 0x4fdff252, 0xd1bb67f1, 0xa6bc5767, 0x3fb506dd, 0x48b2364b,
     0xd80d2bda, 0xaf0a1b4c, 0x36034af6, 0x41047a60, 0xdf60efc3, 0xa867df55, 0x316e8eef, 0x4669be79]
  const ROW_B: seq<bv32> :=
    [0xcb61b38c, 0xbc66831a, 0x256fd2a0, 0x5268e236, 0xcc0c7795, 0xbb0b4703, 0x220216b9, 0x5505262f,
     0xc5ba3bbe, 0xb2bd0b28, 0x2bb45a92, 0x5cb36a04, 0xc2d7ffa7, 0xb5d0cf31, 0x2cd99e8b, 0x5bdeae1d]
  const ROW_C: seq<bv32> :=
    [0x9b64c2b0, 0xec63f226, 0x756aa39c, 0x026d930a, 0x9c0906a9, 0xeb0e363f, 0x72076785, 0x05005713,
     0x95bf4a82, 0xe2b87a14, 0x7bb12bae, 0x0cb61b38, 0x92d28e9b, 0xe5d5be0d, 0x7cdcefb7, 0x0bdbdf21]
  const ROW_D: seq<bv32> :=
    [0x86d3d2d4, 0xf1d4e242, 0x68ddb3f8, 0x1fda836e, 0x81be16cd, 0xf6b9265b, 0x6fb077e1, 0x18b74777,
     0x88085ae6, 0xff0f6a70, 0x66063bca, 0x11010b5c, 0x8f659eff, 0xf862ae69, 0x616bffd3, 0x166ccf45]
  const ROW_E: seq<bv32> :=
    [0xa00ae278, 0xd70dd2ee, 0x4e048354, 0x3903b3c2, 0xa7672661, 0xd06016f7, 0x4969474d, 0x3e6e77db,
     0xaed16a4a, 0xd9d65adc, 0x40df0b66, 0x37d83bf0, 0xa9bcae53, 0xdebb9ec5, 0x47b2cf7f, 0x30b5ffe9]
  const ROW_F: seq<bv32> :=
    [0xbdbdf21c, 0xcabac28a, 0x53b39330, 0x24b4a3a6, 0xbad03605, 0xcdd70693, 0x54de5729, 0x23d967bf,
     0xb3667a2e, 0xc4614ab8, 0x5d681b02, 0x2a6f2b94, 0xb40bbe37, 0xc30c8ea1, 0x5a05df1b, 0x2d02ef8d]

  /** The 256-entry table, sixteen entries to a row. */
  function Table(index: bv8): bv32 {
    var row := Row(index >> 4);
    row[(index & 0x0F) as int]
  }

  function Row(high: bv8): (row: seq<bv32>)
    ensures |row| == 16
  {
    if high == 0 then ROW_0
    else if high == 1 then ROW_1
    else if high == 2 then ROW_2
    else if high == 3 then ROW_3
    else if high == 4 then ROW_4
    else if high == 5 then ROW_5
    else if high == 6 then ROW_6
    else if high == 7 then ROW_7
    else if high == 8 then ROW_8
    else if high == 9 then ROW_9
    else if high == 10 then ROW_A
    else if high == 11 then ROW_B
    else if high == 12 then ROW_C
    else if high == 13 then ROW_D
    else if high == 14 then ROW_E
    else ROW_F
  }

  function TableStep(crc: bv32, v: byte): bv32 {
    Xor(Table(LowByteOf(Xor(crc, Widen(v)))), DropByte(crc))
  }

  function TableFold(data: Bytes, crc: bv32): bv32 {
    if data == [] then crc else TableFold(data[1..], TableStep(crc, data[0]))
  }

  /** crc32 of one view. */
  function Crc(data: Bytes): bv32 {
    Xor(TableFold(data, ONES), ONES)
  }

  function ChunkFold(chunks: seq<Bytes>, crc: bv32): bv32 {
    if chunks == [] then crc else ChunkFold(chunks[1..], TableFold(chunks[0], crc))
  }

  /** crc32 of a list of views. */
  function CrcChunks(chunks: seq<Bytes>): bv32 {
    Xor(ChunkFold(chunks, ONES), ONES)
  }

  // ---- Exclusive-or algebra ----

  lemma XorCommutes(a: bv32, b: bv32)
    ensures Xor(a, b) == Xor(b, a)
  {
  }

  lemma XorAssociates(a: bv32, b: bv32, c: bv32)
    ensures Xor(Xor(a, b), c) == Xor(a, Xor(b, c))
  {
  }

  lemma XorCancels(a: bv32, b: bv32, v: bv32)
    requires Xor(a, v) == Xor(b, v)
    ensures a == b
  {
  }

  // ---- A step is linear over exclusive or, and injective ----

  lemma BitStepOddOdd(a: bv32, b: bv32)
    requires a & 1 == 1 && b & 1 == 1
    ensures BitStep(Xor(a, b)) == Xor(BitStep(a), BitStep(b))
  {
  }

  lemma BitStepOddEven(a: bv32, b: bv32)
    requires a & 1 == 1 && b & 1 == 0
    ensures BitStep(Xor(a, b)) == Xor(BitStep(a), BitStep(b))
  {
  }

  lemma BitStepEvenEven(a: bv32, b: bv32)
    requires a & 1 == 0 && b & 1 == 0
    ensures BitStep(Xor(a, b)) == Xor(BitStep(a), BitStep(b))
  {
  }

  lemma BitStepLinear(a: bv32, b: bv32)
    ensures BitStep(Xor(a, b)) == Xor(BitStep(a), BitStep(b))
  {
    hide *;
    assert a & 1 == 0 || a & 1 == 1;
    assert b & 1 == 0 || b & 1 == 1;
    if a & 1 == 1 {
      if b & 1 == 1 { BitStepOddOdd(a, b); } else { BitStepOddEven(a, b); }
    } else if b & 1 == 1 {
      BitStepOddEven(b, a);
      XorCommutes(a, b);
      XorCommutes(BitStep(a), BitStep(b));
    } else {
      BitStepEvenEven(a, b);
    }
  }

  lemma EightStepsLinear(a: bv32, b: bv32)
    ensures EightSteps(Xor(a, b)) == Xor(EightSteps(a), EightSteps(b))
  {
    hide Xor, BitStep;
    BitStepLinear(a, b);
    var a1, b1 := BitStep(a), BitStep(b);
    BitStepLinear(a1, b1);
    var a2, b2 := BitStep(a1), BitStep(b1);
    BitStepLinear(a2, b2);
    var a3, b3 := BitStep(a2), BitStep(b2);
    BitStepLinear(a3, b3);
    var a4, b4 := BitStep(a3), BitStep(b3);
    BitStepLinear(a4, b4);
    var a5, b5 := BitStep(a4), BitStep(b4);
    BitStepLinear(a5, b5);
    var a6, b6 := BitStep(a5), BitStep(b5);
    BitStepLinear(a6, b6);
    var a7, b7 := BitStep(a6), BitStep(b6);
    BitStepLinear(a7, b7);
  }

  /** Bits above the low byte are only shifted. */
  lemma EightStepsShift(crc: bv32)
    requires crc & 0xFF == 0
    ensures EightSteps(crc) == DropByte(crc)
  {
  }

  lemma BitStepInjective(a: bv32, b: bv32)
    ensures BitStep(a) == BitStep(b) ==> a == b
  {
  }

  lemma EightStepsInjective(a: bv32, b: bv32)
    requires EightSteps(a) == EightSteps(b)
    ensures a == b
  {
    hide BitStep;
    BitStepInjective(a, b);
    var a1, b1 := BitStep(a), BitStep(b);
    BitStepInjective(a1, b1);
    var a2, b2 := BitStep(a1), BitStep(b1);
    BitStepInjective(a2, b2);
    var a3, b3 := BitStep(a2), BitStep(b2);
    BitStepInjective(a3, b3);
    var a4, b4 := BitStep(a3), BitStep(b3);
    BitStepInjective(a4, b4);
    var a5, b5 := BitStep(a4), BitStep(b4);
    BitStepInjective(a5, b5);
    var a6, b6 := BitStep(a5), BitStep(b5);
    BitStepInjective(a6, b6);
    var a7, b7 := BitStep(a6), BitStep(b6);
    BitStepInjective(a7, b7);
  }

  lemma EightStepsSplit(x: bv32)
    ensures EightSteps(x) == Xor(EightSteps(Widen(LowByteOf(x))), DropByte(x))
  {
    var low, high := Widen(LowByteOf(x)), x & 0xFFFF_FF00;
    SplitWord(x);
    EightStepsShift(high);
    hide *;
    EightStepsLinear(low, high);
  }

  lemma SplitWord(x: bv32)
    ensures Xor(Widen(LowByteOf(x)), x & 0xFFFF_FF00) == x
    ensures (x & 0xFFFF_FF00) & 0xFF == 0
    ensures DropByte(x & 0xFFFF_FF00) == DropByte(x)
  {
  }

  // ---- Every table entry is eight bit steps of its index ----

  /** By linearity, a row is its head combined with the first row. */
  ghost function Spread(head: bv32): (row: seq<bv32>)
    ensures |row| == 16
  {
    [Xor(head, ROW_0[0]), Xor(head, ROW_0[1]), Xor(head, ROW_0[2]), Xor(head, ROW_0[3]), Xor(head,
     ROW_0[4]), Xor(head, ROW_0[5]), Xor(head, ROW_0[6]), Xor(head, ROW_0[7]), Xor(head,
     ROW_0[8]), Xor(head, ROW_0[9]), Xor(head, ROW_0[10]), Xor(head, ROW_0[11]), Xor(head,
     ROW_0[12]), Xor(head, ROW_0[13]), Xor(head, ROW_0[14]), Xor(head, ROW_0[15])]
  }

  lemma ZeroSpread()
    ensures ROW_0 == Spread(ROW_0[0])
  {
  }

  lemma RowsSpread()
    ensures ROW_1 == Spread(ROW_1[0])
    ensures ROW_2 == Spread(ROW_2[0])
    ensures ROW_3 == Spread(ROW_3[0])
    ensures ROW_4 == Spread(ROW_4[0])
    ensures ROW_5 == Spread(ROW_5[0])
  {
  }

  lemma RowsSpread2()
    ensures ROW_6 == Spread(ROW_6[0])
    ensures ROW_7 == Spread(ROW_7[0])
    ensures ROW_8 == Spread(ROW_8[0])
    ensures ROW_9 == Spread(ROW_9[0])
    ensures ROW_A == Spread(ROW_A[0])
  {
  }

  lemma RowsSpread3()
    ensures ROW_B == Spread(ROW_B[0])
    ensures ROW_C == Spread(ROW_C[0])
    ensures ROW_D == Spread(ROW_D[0])
    ensures ROW_E == Spread(ROW_E[0])
    ensures ROW_F == Spread(ROW_F[0])
  {
  }

  lemma RowHeads()
    ensures ROW_0[0] == EightSteps(0x00)
    ensures ROW_1[0] == EightSteps(0x10)
    ensures ROW_2[0] == EightSteps(0x20)
    ensures ROW_3[0] == EightSteps(0x30)
    ensures ROW_4[0] == EightSteps(0x40)
    ensures ROW_5[0] == EightSteps(0x50)
    ensures ROW_6[0] == EightSteps(0x60)
    ensures ROW_7[0] == EightSteps(0x70)
  {
  }

  lemma RowHeads2()
    ensures ROW_8[0] == EightSteps(0x80)
    ensures ROW_9[0] == EightSteps(0x90)
    ensures ROW_A[0] == EightSteps(0xA0)
    ensures ROW_B[0] == EightSteps(0xB0)
    ensures ROW_C[0] == EightSteps(0xC0)
    ensures ROW_D[0] == EightSteps(0xD0)
    ensures ROW_E[0] == EightSteps(0xE0)
    ensures ROW_F[0] == EightSteps(0xF0)
  {
  }

  lemma FirstRow()
    ensures ROW_0[0] == EightSteps(0)
    ensures ROW_0[1] == EightSteps(1)
  {
  }

  lemma FirstRow2()
    ensures ROW_0[2] == EightSteps(2)
    ensures ROW_0[3] == EightSteps(3)
  {
  }

  lemma FirstRow3()
    ensures ROW_0[4] == EightSteps(4)
    ensures ROW_0[5] == EightSteps(5)
    ensures ROW_0[6] == EightSteps(6)
    ensures ROW_0[7] == EightSteps(7)
  {
  }

  lemma FirstRow4()
    ensures ROW_0[8] == EightSteps(8)
    ensures ROW_0[9] == EightSteps(9)
    ensures ROW_0[10] == EightSteps(10)
    ensures ROW_0[11] == EightSteps(11)
    ensures ROW_0[12] == EightSteps(12)
    ensures ROW_0[13] == EightSteps(13)
    ensures ROW_0[14] == EightSteps(14)
    ensures ROW_0[15] == EightSteps(15)
  {
  }

  lemma RowOf(high: bv8)
    requires high < 16
    ensures Row(high) == Spread(EightSteps(Widen(high) << 4))
  {
    hide EightSteps, Spread;
    ZeroSpread(); RowsSpread(); RowsSpread2(); RowsSpread3(); RowHeads(); RowHeads2();
  }

  lemma SpreadAt(head: bv32, low: bv8)
    requires low < 16
    ensures Spread(head)[low as int] == Xor(head, EightSteps(Widen(low)))
  {
    hide EightSteps, Xor;
    FirstRow(); FirstRow2(); FirstRow3(); FirstRow4();
  }

  lemma TableIsEightSteps(index: bv8)
    ensures Table(index) == EightSteps(Widen(index))
  {
    var high, low := index >> 4, index & 0x0F;
    NibbleSplit(index);
    hide EightSteps, Spread, Row, Xor, Widen;
    RowOf(high);
    SpreadAt(EightSteps(Widen(high) << 4), low);
    EightStepsLinear(Widen(high) << 4, Widen(low));
  }

  lemma NibbleSplit(index: bv8)
    ensures Xor(Widen(index >> 4) << 4, Widen(index & 0x0F)) == Widen(index)
    ensures index >> 4 < 16 && index & 0x0F < 16
  {
  }

  // ---- Main results ----

  lemma TableStepIsEightSteps(crc: bv32, v: byte)
    ensures TableStep(crc, v) == EightSteps(Xor(crc, Widen(v)))
  {
    var x := Xor(crc, Widen(v));
    assert DropByte(x) == DropByte(crc);
    assert TableStep(crc, v) == Xor(Table(LowByteOf(x)), DropByte(crc));
    hide *;
    TableIsEightSteps(LowByteOf(x));
    EightStepsSplit(x);
  }

  lemma {:induction false} FoldsAgree(data: Bytes, crc: bv32)
    ensures TableFold(data, crc) == BitwiseFold(data, crc)
  {
    hide EightSteps, TableStep, Xor, Widen;
    if data != [] {
      TableStepIsEightSteps(crc, data[0]);
      FoldsAgree(data[1..], TableStep(crc, data[0]));
    }
  }

  /** The table form computes the bit-at-a-time CRC-32 of every byte string. */
  lemma TableFormIsCrc32(data: Bytes)
    ensures Crc(data) == Reference(data)
  {
    hide TableFold, BitwiseFold, Xor;
    FoldsAgree(data, ONES);
  }

  lemma {:induction false} TableFoldAppend(a: Bytes, b: Bytes, crc: bv32)
    ensures TableFold(a + b, crc) == TableFold(b, TableFold(a, crc))
  {
    hide TableStep;
    if a == [] {
      assert a + b == b;
    } else {
      assert (a + b)[1..] == a[1..] + b;
      TableFoldAppend(a[1..], b, TableStep(crc, a[0]));
    }
  }

  lemma {:induction false} ChunkFoldIsConcat(chunks: seq<Bytes>, crc: bv32)
    ensures ChunkFold(chunks, crc) == TableFold(Concat(chunks), crc)
  {
    hide TableStep;
    if chunks != [] {
      TableFoldAppend(chunks[0], Concat(chunks[1..]), crc);
      ChunkFoldIsConcat(chunks[1..], TableFold(chunks[0], crc));
    }
  }

  /** The list form does not see how the bytes are cut into views. */
  lemma ChunkingIrrelevant(chunks: seq<Bytes>)
    ensures CrcChunks(chunks) == Crc(Concat(chunks))
  {
    hide ChunkFold, TableFold, Xor, Concat;
    ChunkFoldIsConcat(chunks, ONES);
  }

  lemma {:induction false} FoldInjective(data: Bytes, a: bv32, b: bv32)
    requires BitwiseFold(data, a) == BitwiseFold(data, b)
    ensures a == b
  {
    hide EightSteps, Xor, Widen;
    if data != [] {
      var v := Widen(data[0]);
      FoldInjective(data[1..], EightSteps(Xor(a, v)), EightSteps(Xor(b, v)));
      EightStepsInjective(Xor(a, v), Xor(b, v));
      XorCancels(a, b, v);
    }
  }

  lemma {:induction false} BitwiseFoldAppend(a: Bytes, b: Bytes, crc: bv32)
    ensures BitwiseFold(a + b, crc) == BitwiseFold(b, BitwiseFold(a, crc))
  {
    hide *;
    FoldsAgree(a + b, crc);
    FoldsAgree(a, crc);
    FoldsAgree(b, TableFold(a, crc));
    TableFoldAppend(a, b, crc);
  }

  /** A byte in front of a word, little-endian. */
  ghost function Prepend(v: byte, w: bv32): bv32 {
    Widen(v) | (w << 8)
  }

  ghost predicate TopByteFree(w: bv32) {
    (w << 8) >> 8 == w
  }

  /** Up to four bytes as a little-endian word. */
  ghost function Word(data: Bytes): bv32 {
    if data == [] then 0 else Prepend(data[0], Word(data[1..]))
  }

  /** A byte's worth of bit steps, n times. */
  ghost function Advance(crc: bv32, n: nat): bv32
    decreases n
  {
    if n == 0 then crc else Advance(EightSteps(crc), n - 1)
  }

  lemma PrependFree(a: byte, b: byte, c: byte)
    ensures TopByteFree(0) && TopByteFree(Prepend(a, 0)) && TopByteFree(Prepend(a, Prepend(b, 0)))
    ensures TopByteFree(Prepend(a, Prepend(b, Prepend(c, 0))))
  {
  }

  lemma {:induction false} WordFree(data: Bytes)
    requires |data| <= 3
    ensures TopByteFree(Word(data))
  {
    hide Prepend, TopByteFree;
    if |data| == 0 {
      PrependFree(0, 0, 0);
    } else if |data| == 1 {
      assert data[1..] == [] && Word([]) == 0;
      PrependFree(data[0], 0, 0);
    } else if |data| == 2 {
      assert data[1..][1..] == [] && Word([]) == 0;
      assert Word(data[1..]) == Prepend(data[1], 0);
      PrependFree(data[0], data[1], 0);
    } else {
      assert data[1..][1..] == [data[2]] && [data[2]][1..] == [];
      assert Word([data[2]]) == Prepend(data[2], 0);
      assert Word(data[1..]) == Prepend(data[1], Word([data[2]]));
      PrependFree(data[0], data[1], data[2]);
    }
  }

  lemma PrependIsXor(crc: bv32, v: byte, w: bv32)
    ensures Xor(crc, Prepend(v, w)) == Xor(Xor(crc, Widen(v)), w << 8)
    ensures (w << 8) & 0xFF == 0
    ensures TopByteFree(w) ==> DropByte(w << 8) == w
  {
    DisjointOr(v, w);
    hide Xor, Prepend, Widen;
    XorAssociates(crc, Widen(v), w << 8);
  }

  lemma DisjointOr(v: byte, w: bv32)
    ensures Prepend(v, w) == Xor(Widen(v), w << 8)
    ensures TopByteFree(w) ==> LowByteOf(Prepend(v, w)) == v && DropByte(Prepend(v, w)) == w
  {
  }

  lemma AbsorbByte(crc: bv32, v: byte, w: bv32)
    requires TopByteFree(w)
    ensures Xor(EightSteps(Xor(crc, Widen(v))), w) == EightSteps(Xor(crc, Prepend(v, w)))
  {
    hide *;
    PrependIsXor(crc, v, w);
    EightStepsLinear(Xor(crc, Widen(v)), w << 8);
    EightStepsShift(w << 8);
  }

  /** Absorbing at most four bytes is absorbing one word, then stepping. */
  lemma {:induction false} FoldIsWord(data: Bytes, crc: bv32)
    requires |data| <= 4
    ensures BitwiseFold(data, crc) == Advance(Xor(crc, Word(data)), |data|)
  {
    hide EightSteps, Xor, Widen, Prepend, TopByteFree;
    if data == [] {
      XorZero(crc);
    } else {
      FoldIsWord(data[1..], EightSteps(Xor(crc, Widen(data[0]))));
      WordFree(data[1..]);
      AbsorbByte(crc, data[0], Word(data[1..]));
    }
  }

  lemma XorZero(crc: bv32)
    ensures Xor(crc, 0) == crc
  {
  }

  lemma {:induction false} AdvanceInjective(a: bv32, b: bv32, n: nat)
    requires Advance(a, n) == Advance(b, n)
    ensures a == b
    decreases n
  {
    hide EightSteps;
    if n > 0 {
      AdvanceInjective(EightSteps(a), EightSteps(b), n - 1);
      EightStepsInjective(a, b);
    }
  }

  lemma PrependInjective(v: byte, w: bv32, v': byte, w': bv32)
    requires TopByteFree(w) && TopByteFree(w') && Prepend(v, w) == Prepend(v', w')
    ensures v == v' && w == w'
  {
    hide *;
    DisjointOr(v, w);
    DisjointOr(v', w');
  }

  lemma {:induction false} WordInjective(a: Bytes, b: Bytes)
    requires |a| == |b| <= 4 && Word(a) == Word(b)
    ensures a == b
  {
    hide Prepend, TopByteFree;
    if a != [] {
      WordFree(a[1..]);
      WordFree(b[1..]);
      PrependInjective(a[0], Word(a[1..]), b[0], Word(b[1..]));
      WordInjective(a[1..], b[1..]);
      assert a == [a[0]] + a[1..] && b == [b[0]] + b[1..];
    }
  }

  /** From any one state, different strings of the same length, at most four bytes, never meet. */
  lemma BurstSeparates(a: Bytes, b: Bytes, crc: bv32)
    requires |a| == |b| <= 4 && BitwiseFold(a, crc) == BitwiseFold(b, crc)
    ensures a == b
  {
    hide *;
    FoldIsWord(a, crc);
    FoldIsWord(b, crc);
    AdvanceInjective(Xor(crc, Word(a)), Xor(crc, Word(b)), |a|);
    XorCommutes(crc, Word(a));
    XorCommutes(crc, Word(b));
    XorCancels(Word(a), Word(b), crc);
    WordInjective(a, b);
  }

  lemma CrcInjectiveInFold(a: Bytes, b: Bytes)
    requires Crc(a) == Crc(b)
    ensures BitwiseFold(a, ONES) == BitwiseFold(b, ONES)
  {
    hide BitwiseFold, TableFold, Xor;
    FoldsAgree(a, ONES);
    FoldsAgree(b, ONES);
    XorCancels(TableFold(a, ONES), TableFold(b, ONES), ONES);
  }

  /** Any damage confined to at most four consecutive bytes, a single byte in particular,
      changes the checksum. */
  lemma BurstDetected(prefix: Bytes, a: Bytes, b: Bytes, suffix: Bytes)
    requires |a| == |b| <= 4 && a != b
    ensures Crc(prefix + a + suffix) != Crc(prefix + b + suffix)
  {
    hide *;
    if Crc(prefix + a + suffix) == Crc(prefix + b + suffix) {
      CrcInjectiveInFold(prefix + a + suffix, prefix + b + suffix);
      BitwiseFoldAppend(prefix + a, suffix, ONES);
      BitwiseFoldAppend(prefix + b, suffix, ONES);
      FoldInjective(suffix, BitwiseFold(prefix + a, ONES), BitwiseFold(prefix + b, ONES));
      BitwiseFoldAppend(prefix, a, ONES);
      BitwiseFoldAppend(prefix, b, ONES);
      BurstSeparates(a, b, BitwiseFold(prefix, ONES));
    }
  }
}
