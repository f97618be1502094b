/** The table that genksyms carries, entry by entry, against the register that it stands for. */
module CrcTable {
  import opened CrcRegister

  // ------------------------------------------------------------------------
  // The literal table, in rows of eight entries
  // ------------------------------------------------------------------------

  function RowsFrom0(r: bv32): (s: seq<bv32>)
    ensures |s| == 8
  {
    match r
    case 0 => [0x00000000, 0x77073096, 0xee0e612c, 0x990951ba, 0x076dc419, 0x706af48f, 0xe963a535, 0x9e6495a3]
    case 1 => [0x0edb8832, 0x79dcb8a4, 0xe0d5e91e, 0x97d2d988, 0x09b64c2b, 0x7eb17cbd, 0xe7b82d07, 0x90bf1d91]
    case 2 => [0x1db71064, 0x6ab020f2, 0xf3b97148, 0x84be41de, 0x1adad47d, 0x6ddde4eb, 0xf4d4b551, 0x83d385c7]
    case 3 => [0x136c9856, 0x646ba8c0, 0xfd62f97a, 0x8a65c9ec, 0x14015c4f, 0x63066cd9, 0xfa0f3d63, 0x8d080df5]
    case 4 => [0x3b6e20c8, 0x4c69105e, 0xd56041e4, 0xa2677172, 0x3c03e4d1, 0x4b04d447, 0xd20d85fd, 0xa50ab56b]
    case 5 => [0x35b5a8fa, 0x42b2986c, 0xdbbbc9d6, 0xacbcf940, 0x32d86ce3, 0x45df5c75, 0xdcd60dcf, 0xabd13d59]
    case 6 => [0x26d930ac, 0x51de003a, 0xc8d75180, 0xbfd06116, 0x21b4f4b5, 0x56b3c423, 0xcfba9599, 0xb8bda50f]
    case _ => [0x2802b89e, 0x5f058808, 0xc60cd9b2, 0xb10be924, 0x2f6f7c87, 0x58684c11, 0xc1611dab, 0xb6662d3d]
  }

  function RowsFrom8(r: bv32): (s: seq<bv32>)
    ensures |s| == 8
  {
    match r
    case 0 => [0x76dc4190, 0x01db7106, 0x98d220bc, 0xefd5102a, 0x71b18589, 0x06b6b51f, 0x9fbfe4a5, 0xe8b8d433]
    case 1 => [0x7807c9a2, 0x0f00f934, 0x9609a88e, 0xe10e9818, 0x7f6a0dbb, 0x086d3d2d, 0x91646c97, 0xe6635c01]
    case 2 => [0x6b6b51f4, 0x1c6c6162, 0x856530d8, 0xf262004e, 0x6c0695ed, 0x1b01a57b, 0x8208f4c1, 0xf50fc457]
    case 3 => [0x65b0d9c6, 0x12b7e950, 0x8bbeb8ea, 0xfcb9887c, 0x62dd1ddf, 0x15da2d49, 0x8cd37cf3, 0xfbd44c65]
    case 4 => [0x4db26158, 0x3ab551ce, 0xa3bc0074, 0xd4bb30e2, 0x4adfa541, 0x3dd895d7, 0xa4d1c46d, 0xd3d6f4fb]
    case 5 => [0x4369e96a, 0x346ed9fc, 0xad678846, 0xda60b8d0, 0x44042d73, 0x33031de5, 0xaa0a4c5f, 0xdd0d7cc9]
    case 6 => [0x5005713c, 0x270241aa, 0xbe0b1010, 0xc90c2086, 0x5768b525, 0x206f85b3, 0xb966d409, 0xce61e49f]
    case _ => [0x5edef90e, 0x29d9c998, 0xb0d09822, 0xc7d7a8b4, 0x59b33d17, 0x2eb40d81, 0xb7bd5c3b, 0xc0ba6cad]
  }

  function RowsFrom16(r: bv32): (s: seq<bv32>)
    ensures |s| == 8
  {
    match r
    case 0 => [0xedb88320, 0x9abfb3b6, 0x03b6e20c, 0x74b1d29a, 0xead54739, 0x9dd277af, 0x04db2615, 0x73dc1683]
    case 1 => [0xe3630b12, 0x94643b84, 0x0d6d6a3e, 0x7a6a5aa8, 0xe40ecf0b, 0x9309ff9d, 0x0a00ae27, 0x7d079eb1]
    case 2 => [0xf00f9344, 0x8708a3d2, 0x1e01f268, 0x6906c2fe, 0xf762575d, 0x806567cb, 0x196c3671, 0x6e6b06e7]
    case 3 => [0xfed41b76, 0x89d32be0, 0x10da7a5a, 0x67dd4acc, 0xf9b9df6f, 0x8ebeeff9, 0x17b7be43, 0x60b08ed5]
    case 4 => [0xd6d6a3e8, 0xa1d1937e, 0x38d8c2c4, 0x4fdff252, 0xd1bb67f1, 0xa6bc5767, 0x3fb506dd, 0x48b2364b]
    case 5 => [0xd80d2bda, 0xaf0a1b4c, 0x36034af6, 0x41047a60, 0xdf60efc3, 0xa867df55, 0x316e8eef, 0x4669be79]
    case 6 => [0xcb61b38c, 0xbc66831a, 0x256fd2a0, 0x5268e236, 0xcc0c7795, 0xbb0b4703, 0x220216b9, 0x5505262f]
    case _ => [0xc5ba3bbe, 0xb2bd0b28, 0x2bb45a92, 0x5cb36a04, 0xc2d7ffa7, 0xb5d0cf31, 0x2cd99e8b, 0x5bdeae1d]
  }

  function RowsFrom24(r: bv32): (s: seq<bv32>)
    ensures |s| == 8
  {
    match r
    case 0 => [0x9b64c2b0, 0xec63f226, 0x756aa39c, 0x026d930a, 0x9c0906a9, 0xeb0e363f, 0x72076785, 0x05005713]
    case 1 => [0x95bf4a82, 0xe2b87a14, 0x7bb12bae, 0x0cb61b38, 0x92d28e9b, 0xe5d5be0d, 0x7cdcefb7, 0x0bdbdf21]
    case 2 => [0x86d3d2d4, 0xf1d4e242, 0x68ddb3f8, 0x1fda836e, 0x81be16cd, 0xf6b9265b, 0x6fb077e1, 0x18b74777]
    case 3 => [0x88085ae6, 0xff0f6a70, 0x66063bca, 0x11010b5c, 0x8f659eff, 0xf862ae69, 0x616bffd3, 0x166ccf45]
    case 4 => [0xa00ae278, 0xd70dd2ee, 0x4e048354, 0x3903b3c2, 0xa7672661, 0xd06016f7, 0x4969474d, 0x3e6e77db]
    case 5 => [0xaed16a4a, 0xd9d65adc, 0x40df0b66, 0x37d83bf0, 0xa9bcae53, 0xdebb9ec5, 0x47b2cf7f, 0x30b5ffe9]
    case 6 => [0xbdbdf21c, 0xcabac28a, 0x53b39330, 0x24b4a3a6, 0xbad03605, 0xcdd70693, 0x54de5729, 0x23d967bf]
    case _ => [0xb3667a2e, 0xc4614ab8, 0x5d681b02, 0x2a6f2b94, 0xb40bbe37, 0xc30c8ea1, 0x5a05df1b, 0x2d02ef8d]
  }

  function Row(r: bv32): (s: seq<bv32>)
    requires r < 32
    ensures |s| == 8
  {
    if r < 8 then RowsFrom0(r)
    else if r < 16 then RowsFrom8(r - 8)
    else if r < 24 then RowsFrom16(r - 16)
    else RowsFrom24(r - 24)
  }

  /** crctab32[n]. */
  function Table(n: bv32): bv32
    requires n < 256
  {
    Pick(Row(n >> 3), n & 7)
  }

  function Pick(row: seq<bv32>, k: bv32): bv32
    requires |row| == 8 && k < 8
  {
    match k
    case 0 => row[0]
    case 1 => row[1]
    case 2 => row[2]
    case 3 => row[3]
    case 4 => row[4]
    case 5 => row[5]
    case 6 => row[6]
    case _ => row[7]
  }

  /** Combined with entry k of the first row, the first entry of a row is its entry k. */
  predicate Follows(row: seq<bv32>, first: seq<bv32>)
    requires |row| == |first| == 8
  {
    && row[0] == Xor(row[0], first[0])
    && row[1] == Xor(row[0], first[1]) && row[2] == Xor(row[0], first[2]) && row[3] == Xor(row[0], first[3])
    && row[4] == Xor(row[0], first[4]) && row[5] == Xor(row[0], first[5]) && row[6] == Xor(row[0], first[6])
    && row[7] == Xor(row[0], first[7])
  }

  lemma Follows0(r: bv32)
    requires r < 8
    ensures Follows(RowsFrom0(r), RowsFrom0(0))
  {
  }

  lemma Follows8(r: bv32)
    requires r < 8
    ensures Follows(RowsFrom8(r), RowsFrom0(0))
  {
  }

  lemma Follows16(r: bv32)
    requires r < 8
    ensures Follows(RowsFrom16(r), RowsFrom0(0))
  {
  }

  lemma Follows24(r: bv32)
    requires r < 8
    ensures Follows(RowsFrom24(r), RowsFrom0(0))
  {
  }

  lemma RowFollows(r: bv32)
    requires r < 32
    ensures Follows(Row(r), Row(0))
  {
    hide Follows, RowsFrom0, RowsFrom8, RowsFrom16, RowsFrom24;
    if r < 8 {
      Follows0(r);
    } else if r < 16 {
      Follows8(r - 8);
    } else if r < 24 {
      Follows16(r - 16);
    } else {
      Follows24(r - 24);
    }
  }

  /** First entries of rows combine in the same way. */
  lemma Heads0(r: bv32)
    requires r < 8
    ensures RowsFrom0(0)[0] == 0
    ensures 4 <= r ==> RowsFrom0(r)[0] == Xor(RowsFrom0(4)[0], RowsFrom0(r - 4)[0])
    ensures RowsFrom0(3)[0] == Xor(RowsFrom0(2)[0], RowsFrom0(1)[0])
  {
  }

  lemma Heads8(r: bv32)
    requires r < 8
    ensures RowsFrom8(r)[0] == Xor(RowsFrom8(0)[0], RowsFrom0(r)[0])
  {
  }

  lemma Heads16(r: bv32)
    requires r < 8
    ensures RowsFrom16(r)[0] == Xor(RowsFrom16(0)[0], RowsFrom0(r)[0])
  {
  }

  lemma Heads24(r: bv32)
    requires r < 8
    ensures RowsFrom24(r)[0] == Xor(RowsFrom16(0)[0], RowsFrom8(r)[0])
  {
  }

  lemma Entry1()
    ensures RowsFrom0(0)[1] == Shifts(1, 8)
  {
  }

  lemma Entry2()
    ensures RowsFrom0(0)[2] == Shifts(2, 8)
  {
  }

  lemma Entry4()
    ensures RowsFrom0(0)[4] == Shifts(4, 8)
  {
  }

  lemma Entry8()
    ensures RowsFrom0(1)[0] == Shifts(8, 8)
  {
  }

  lemma Entry16()
    ensures RowsFrom0(2)[0] == Shifts(16, 8)
  {
  }

  lemma Entry32()
    ensures RowsFrom0(4)[0] == Shifts(32, 8)
  {
  }

  lemma Entry64()
    ensures RowsFrom8(0)[0] == Shifts(64, 8)
  {
  }

  lemma Entry128()
    ensures RowsFrom16(0)[0] == Shifts(128, 8)
  {
  }

  lemma FirstRow()
    ensures RowsFrom0(0)[0] == 0
    ensures RowsFrom0(0)[3] == Xor(RowsFrom0(0)[2], RowsFrom0(0)[1])
    ensures RowsFrom0(0)[5] == Xor(RowsFrom0(0)[4], RowsFrom0(0)[1])
    ensures RowsFrom0(0)[6] == Xor(RowsFrom0(0)[4], RowsFrom0(0)[2])
    ensures RowsFrom0(0)[7] == Xor(RowsFrom0(0)[4], RowsFrom0(0)[3])
  {
  }

  // ------------------------------------------------------------------------
  // Every entry is eight steps of the register
  // ------------------------------------------------------------------------

  lemma Combined(a: bv32, b: bv32, x: bv32, y: bv32)
    requires x == Shifts(a, 8) && y == Shifts(b, 8)
    ensures Xor(x, y) == Shifts(Xor(a, b), 8)
  {
    hide Xor, Shifts;
    ShiftsXor(a, b, 8);
  }

  lemma ZeroStays()
    ensures Shifts(0, 8) == 0
  {
    XorSelf(0);
    hide Xor, Shifts;
    ShiftsXor(0, 0, 8);
    XorSelf(Shifts(0, 8));
  }

  lemma SmallBits()
    ensures Xor(2, 1) == 3 && Xor(4, 1) == 5 && Xor(4, 2) == 6 && Xor(4, 3) == 7
  {
  }

  lemma FirstRowIs(k: bv32)
    requires k < 8
    ensures Pick(RowsFrom0(0), k) == Shifts(k, 8)
  {
    hide Xor, Shifts, RowsFrom0;
    ZeroStays(); Entry1(); Entry2(); Entry4();
    FirstRow();
    SmallBits();
    var row := RowsFrom0(0);
    Combined(2, 1, row[2], row[1]);
    Combined(4, 1, row[4], row[1]);
    Combined(4, 2, row[4], row[2]);
    Combined(4, 3, row[4], row[3]);
  }

  function Times8(r: bv32): bv32 { r << 3 }

  lemma HeadBits(r: bv32)
    requires r < 8
    ensures Times8(0) == 0 && Times8(1) == 8 && Times8(2) == 16 && Times8(3) == Xor(16, 8) && Times8(4) == 32
    ensures 4 <= r ==> Times8(r) == Xor(32, Times8(r - 4))
    ensures Times8(r + 8) == Xor(64, Times8(r))
    ensures Times8(r + 16) == Xor(128, Times8(r))
    ensures Times8(r + 24) == Xor(128, Times8(r + 8))
  {
  }

  lemma HeadFrom0(r: bv32)
    requires r < 8
    ensures RowsFrom0(r)[0] == Shifts(Times8(r), 8)
    decreases r
  {
    hide Xor, Shifts, RowsFrom0, Times8;
    Heads0(r);
    HeadBits(r);
    ZeroStays(); Entry8(); Entry16(); Entry32();
    Combined(16, 8, RowsFrom0(2)[0], RowsFrom0(1)[0]);
    if 4 <= r {
      HeadFrom0(r - 4);
      Combined(32, Times8(r - 4), RowsFrom0(4)[0], RowsFrom0(r - 4)[0]);
    }
  }

  lemma HeadFrom8(r: bv32)
    requires r < 8
    ensures RowsFrom8(r)[0] == Shifts(Times8(r + 8), 8)
  {
    hide Xor, Shifts, RowsFrom0, RowsFrom8, Times8;
    Heads8(r);
    HeadBits(r);
    Entry64();
    HeadFrom0(r);
    Combined(64, Times8(r), RowsFrom8(0)[0], RowsFrom0(r)[0]);
  }

  lemma HeadIs(r: bv32)
    requires r < 32
    ensures Row(r)[0] == Shifts(Times8(r), 8)
  {
    hide Xor, Shifts, RowsFrom0, RowsFrom8, RowsFrom16, RowsFrom24, Times8;
    Entry128();
    if r < 8 {
      HeadFrom0(r);
    } else if r < 16 {
      HeadFrom8(r - 8);
    } else if r < 24 {
      var q := r - 16;
      Heads16(q);
      HeadBits(q);
      HeadFrom0(q);
      Combined(128, Times8(q), RowsFrom16(0)[0], RowsFrom0(q)[0]);
    } else {
      var q := r - 24;
      Heads24(q);
      HeadBits(q);
      HeadFrom8(q);
      Combined(128, Times8(q + 8), RowsFrom16(0)[0], RowsFrom8(q)[0]);
    }
  }

  lemma Picked(row: seq<bv32>, first: seq<bv32>, k: bv32)
    requires |row| == |first| == 8 && Follows(row, first) && k < 8
    ensures Pick(row, k) == Xor(row[0], Pick(first, k))
  {
    hide Xor;
  }

  lemma Split(n: bv32)
    requires n < 256
    ensures n >> 3 < 32 && n & 7 < 8 && Xor(Times8(n >> 3), n & 7) == n
  {
  }

  /** Each of the 256 constants is what eight steps of the register make of its index. */
  lemma TableIsRule(n: bv32)
    requires n < 256
    ensures Table(n) == Shifts(n, 8)
  {
    Split(n);
    hide Xor, Shifts, Row, RowsFrom0, Follows, Pick, Times8;
    var r, k := n >> 3, n & 7;
    RowFollows(r);
    Picked(Row(r), Row(0), k);
    HeadIs(r);
    FirstRowIs(k);
    RowZero();
    Combined(Times8(r), k, Row(r)[0], Pick(Row(0), k));
  }

  lemma RowZero()
    ensures Row(0) == RowsFrom0(0)
  {
  }
}
