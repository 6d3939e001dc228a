/**
 * The two checksums of src/ld_crc.c with the tables of include/ld_crc.h: CRC-8 with polynomial
 * 0x97, most significant bit first, and CRC-32 with the reflected polynomial 0xFA567D89.
 */
module CrcTables {

  /** One bit of the CRC-8 division: shift left, subtract the polynomial when a bit falls out. */
  function Step8(c: bv8): bv8 {
    if c & 0x80 != 0 then (c << 1) ^ 0x97 else c << 1
  }

  function Rounds8(c: bv8): bv8 {
    Step8(Step8(Step8(Step8(Step8(Step8(Step8(Step8(c))))))))
  }

  /** One bit of the CRC-32 division, reflected. */
  function Step32(c: bv32): bv32 {
    if c & 1 != 0 then (c >> 1) ^ 0xFA567D89 else c >> 1
  }

  function Rounds32(c: bv32): bv32 {
    Step32(Step32(Step32(Step32(Step32(Step32(Step32(Step32(c))))))))
  }

  // The 8-bit table, sixteen entries a row

  function Crc8Row0(i: bv8): bv8 {
    if i == 0x00 then 0x00 else if i == 0x01 then 0x97 else if i == 0x02 then 0xB9 else if i == 0x03 then 0x2E else
    if i == 0x04 then 0xE5 else if i == 0x05 then 0x72 else if i == 0x06 then 0x5C else if i == 0x07 then 0xCB else
    if i == 0x08 then 0x5D else if i == 0x09 then 0xCA else if i == 0x0A then 0xE4 else if i == 0x0B then 0x73 else
    if i == 0x0C then 0xB8 else if i == 0x0D then 0x2F else if i == 0x0E then 0x01 else 0x96
  }

  lemma Crc8Row0IsRounds(i: bv8)
    requires 0x00 <= i <= 0x0F
    ensures Crc8Row0(i) == Rounds8(i)
  {
  }

  function Crc8Row1(i: bv8): bv8 {
    if i == 0x10 then 0xBA else if i == 0x11 then 0x2D else if i == 0x12 then 0x03 else if i == 0x13 then 0x94 else
    if i == 0x14 then 0x5F else if i == 0x15 then 0xC8 else if i == 0x16 then 0xE6 else if i == 0x17 then 0x71 else
    if i == 0x18 then 0xE7 else if i == 0x19 then 0x70 else if i == 0x1A then 0x5E else if i == 0x1B then 0xC9 else
    if i == 0x1C then 0x02 else if i == 0x1D then 0x95 else if i == 0x1E then 0xBB else 0x2C
  }

  lemma Crc8Row1IsRounds(i: bv8)
    requires 0x10 <= i <= 0x1F
    ensures Crc8Row1(i) == Rounds8(i)
  {
  }

  function Crc8Row2(i: bv8): bv8 {
    if i == 0x20 then 0xE3 else if i == 0x21 then 0x74 else if i == 0x22 then 0x5A else if i == 0x23 then 0xCD else
    if i == 0x24 then 0x06 else if i == 0x25 then 0x91 else if i == 0x26 then 0xBF else if i == 0x27 then 0x28 else
    if i == 0x28 then 0xBE else if i == 0x29 then 0x29 else if i == 0x2A then 0x07 else if i == 0x2B then 0x90 else
    if i == 0x2C then 0x5B else if i == 0x2D then 0xCC else if i == 0x2E then 0xE2 else 0x75
  }

  lemma Crc8Row2IsRounds(i: bv8)
    requires 0x20 <= i <= 0x2F
    ensures Crc8Row2(i) == Rounds8(i)
  {
  }

  function Crc8Row3(i: bv8): bv8 {
    if i == 0x30 then 0x59 else if i == 0x31 then 0xCE else if i == 0x32 then 0xE0 else if i == 0x33 then 0x77 else
    if i == 0x34 then 0xBC else if i == 0x35 then 0x2B else if i == 0x36 then 0x05 else if i == 0x37 then 0x92 else
    if i == 0x38 then 0x04 else if i == 0x39 then 0x93 else if i == 0x3A then 0xBD else if i == 0x3B then 0x2A else
    if i == 0x3C then 0xE1 else if i == 0x3D then 0x76 else if i == 0x3E then 0x58 else 0xCF
  }

  lemma Crc8Row3IsRounds(i: bv8)
    requires 0x30 <= i <= 0x3F
    ensures Crc8Row3(i) == Rounds8(i)
  {
  }

  function Crc8Row4(i: bv8): bv8 {
    if i == 0x40 then 0x51 else if i == 0x41 then 0xC6 else if i == 0x42 then 0xE8 else if i == 0x43 then 0x7F else
    if i == 0x44 then 0xB4 else if i == 0x45 then 0x23 else if i == 0x46 then 0x0D else if i == 0x47 then 0x9A else
    if i == 0x48 then 0x0C else if i == 0x49 then 0x9B else if i == 0x4A then 0xB5 else if i == 0x4B then 0x22 else
    if i == 0x4C then 0xE9 else if i == 0x4D then 0x7E else if i == 0x4E then 0x50 else 0xC7
  }

  lemma Crc8Row4IsRounds(i: bv8)
    requires 0x40 <= i <= 0x4F
    ensures Crc8Row4(i) == Rounds8(i)
  {
  }

  function Crc8Row5(i: bv8): bv8 {
    if i == 0x50 then 0xEB else if i == 0x51 then 0x7C else if i == 0x52 then 0x52 else if i == 0x53 then 0xC5 else
    if i == 0x54 then 0x0E else if i == 0x55 then 0x99 else if i == 0x56 then 0xB7 else if i == 0x57 then 0x20 else
    if i == 0x58 then 0xB6 else if i == 0x59 then 0x21 else if i == 0x5A then 0x0F else if i == 0x5B then 0x98 else
    if i == 0x5C then 0x53 else if i == 0x5D then 0xC4 else if i == 0x5E then 0xEA else 0x7D
  }

  lemma Crc8Row5IsRounds(i: bv8)
    requires 0x50 <= i <= 0x5F
    ensures Crc8Row5(i) == Rounds8(i)
  {
  }

  function Crc8Row6(i: bv8): bv8 {
    if i == 0x60 then 0xB2 else if i == 0x61 then 0x25 else if i == 0x62 then 0x0B else if i == 0x63 then 0x9C else
    if i == 0x64 then 0x57 else if i == 0x65 then 0xC0 else if i == 0x66 then 0xEE else if i == 0x67 then 0x79 else
    if i == 0x68 then 0xEF else if i == 0x69 then 0x78 else if i == 0x6A then 0x56 else if i == 0x6B then 0xC1 else
    if i == 0x6C then 0x0A else if i == 0x6D then 0x9D else if i == 0x6E then 0xB3 else 0x24
  }

  lemma Crc8Row6IsRounds(i: bv8)
    requires 0x60 <= i <= 0x6F
    ensures Crc8Row6(i) == Rounds8(i)
  {
  }

  function Crc8Row7(i: bv8): bv8 {
    if i == 0x70 then 0x08 else if i == 0x71 then 0x9F else if i == 0x72 then 0xB1 else if i == 0x73 then 0x26 else
    if i == 0x74 then 0xED else if i == 0x75 then 0x7A else if i == 0x76 then 0x54 else if i == 0x77 then 0xC3 else
    if i == 0x78 then 0x55 else if i == 0x79 then 0xC2 else if i == 0x7A then 0xEC else if i == 0x7B then 0x7B else
    if i == 0x7C then 0xB0 else if i == 0x7D then 0x27 else if i == 0x7E then 0x09 else 0x9E
  }

  lemma Crc8Row7IsRounds(i: bv8)
    requires 0x70 <= i <= 0x7F
    ensures Crc8Row7(i) == Rounds8(i)
  {
  }

  function Crc8Row8(i: bv8): bv8 {
    if i == 0x80 then 0xA2 else if i == 0x81 then 0x35 else if i == 0x82 then 0x1B else if i == 0x83 then 0x8C else
    if i == 0x84 then 0x47 else if i == 0x85 then 0xD0 else if i == 0x86 then 0xFE else if i == 0x87 then 0x69 else
    if i == 0x88 then 0xFF else if i == 0x89 then 0x68 else if i == 0x8A then 0x46 else if i == 0x8B then 0xD1 else
    if i == 0x8C then 0x1A else if i == 0x8D then 0x8D else if i == 0x8E then 0xA3 else 0x34
  }

  lemma Crc8Row8IsRounds(i: bv8)
    requires 0x80 <= i <= 0x8F
    ensures Crc8Row8(i) == Rounds8(i)
  {
  }

  function Crc8Row9(i: bv8): bv8 {
    if i == 0x90 then 0x18 else if i == 0x91 then 0x8F else if i == 0x92 then 0xA1 else if i == 0x93 then 0x36 else
    if i == 0x94 then 0xFD else if i == 0x95 then 0x6A else if i == 0x96 then 0x44 else if i == 0x97 then 0xD3 else
    if i == 0x98 then 0x45 else if i == 0x99 then 0xD2 else if i == 0x9A then 0xFC else if i == 0x9B then 0x6B else
    if i == 0x9C then 0xA0 else if i == 0x9D then 0x37 else if i == 0x9E then 0x19 else 0x8E
  }

  lemma Crc8Row9IsRounds(i: bv8)
    requires 0x90 <= i <= 0x9F
    ensures Crc8Row9(i) == Rounds8(i)
  {
  }

  function Crc8RowA(i: bv8): bv8 {
    if i == 0xA0 then 0x41 else if i == 0xA1 then 0xD6 else if i == 0xA2 then 0xF8 else if i == 0xA3 then 0x6F else
    if i == 0xA4 then 0xA4 else if i == 0xA5 then 0x33 else if i == 0xA6 then 0x1D else if i == 0xA7 then 0x8A else
    if i == 0xA8 then 0x1C else if i == 0xA9 then 0x8B else if i == 0xAA then 0xA5 else if i == 0xAB then 0x32 else
    if i == 0xAC then 0xF9 else if i == 0xAD then 0x6E else if i == 0xAE then 0x40 else 0xD7
  }

  lemma Crc8RowAIsRounds(i: bv8)
    requires 0xA0 <= i <= 0xAF
    ensures Crc8RowA(i) == Rounds8(i)
  {
  }

  function Crc8RowB(i: bv8): bv8 {
    if i == 0xB0 then 0xFB else if i == 0xB1 then 0x6C else if i == 0xB2 then 0x42 else if i == 0xB3 then 0xD5 else
    if i == 0xB4 then 0x1E else if i == 0xB5 then 0x89 else if i == 0xB6 then 0xA7 else if i == 0xB7 then 0x30 else
    if i == 0xB8 then 0xA6 else if i == 0xB9 then 0x31 else if i == 0xBA then 0x1F else if i == 0xBB then 0x88 else
    if i == 0xBC then 0x43 else if i == 0xBD then 0xD4 else if i == 0xBE then 0xFA else 0x6D
  }

  lemma Crc8RowBIsRounds(i: bv8)
    requires 0xB0 <= i <= 0xBF
    ensures Crc8RowB(i) == Rounds8(i)
  {
  }

  function Crc8RowC(i: bv8): bv8 {
    if i == 0xC0 then 0xF3 else if i == 0xC1 then 0x64 else if i == 0xC2 then 0x4A else if i == 0xC3 then 0xDD else
    if i == 0xC4 then 0x16 else if i == 0xC5 then 0x81 else if i == 0xC6 then 0xAF else if i == 0xC7 then 0x38 else
    if i == 0xC8 then 0xAE else if i == 0xC9 then 0x39 else if i == 0xCA then 0x17 else if i == 0xCB then 0x80 else
    if i == 0xCC then 0x4B else if i == 0xCD then 0xDC else if i == 0xCE then 0xF2 else 0x65
  }

  lemma Crc8RowCIsRounds(i: bv8)
    requires 0xC0 <= i <= 0xCF
    ensures Crc8RowC(i) == Rounds8(i)
  {
  }

  function Crc8RowD(i: bv8): bv8 {
    if i == 0xD0 then 0x49 else if i == 0xD1 then 0xDE else if i == 0xD2 then 0xF0 else if i == 0xD3 then 0x67 else
    if i == 0xD4 then 0xAC else if i == 0xD5 then 0x3B else if i == 0xD6 then 0x15 else if i == 0xD7 then 0x82 else
    if i == 0xD8 then 0x14 else if i == 0xD9 then 0x83 else if i == 0xDA then 0xAD else if i == 0xDB then 0x3A else
    if i == 0xDC then 0xF1 else if i == 0xDD then 0x66 else if i == 0xDE then 0x48 else 0xDF
  }

  lemma Crc8RowDIsRounds(i: bv8)
    requires 0xD0 <= i <= 0xDF
    ensures Crc8RowD(i) == Rounds8(i)
  {
  }

  function Crc8RowE(i: bv8): bv8 {
    if i == 0xE0 then 0x10 else if i == 0xE1 then 0x87 else if i == 0xE2 then 0xA9 else if i == 0xE3 then 0x3E else
    if i == 0xE4 then 0xF5 else if i == 0xE5 then 0x62 else if i == 0xE6 then 0x4C else if i == 0xE7 then 0xDB else
    if i == 0xE8 then 0x4D else if i == 0xE9 then 0xDA else if i == 0xEA then 0xF4 else if i == 0xEB then 0x63 else
    if i == 0xEC then 0xA8 else if i == 0xED then 0x3F else if i == 0xEE then 0x11 else 0x86
  }

  lemma Crc8RowEIsRounds(i: bv8)
    requires 0xE0 <= i <= 0xEF
    ensures Crc8RowE(i) == Rounds8(i)
  {
  }

  function Crc8RowF(i: bv8): bv8 {
    if i == 0xF0 then 0xAA else if i == 0xF1 then 0x3D else if i == 0xF2 then 0x13 else if i == 0xF3 then 0x84 else
    if i == 0xF4 then 0x4F else if i == 0xF5 then 0xD8 else if i == 0xF6 then 0xF6 else if i == 0xF7 then 0x61 else
    if i == 0xF8 then 0xF7 else if i == 0xF9 then 0x60 else if i == 0xFA then 0x4E else if i == 0xFB then 0xD9 else
    if i == 0xFC then 0x12 else if i == 0xFD then 0x85 else if i == 0xFE then 0xAB else 0x3C
  }

  lemma Crc8RowFIsRounds(i: bv8)
    requires 0xF0 <= i <= 0xFF
    ensures Crc8RowF(i) == Rounds8(i)
  {
  }

  function Crc8Table(i: bv8): bv8 {
    if i < 0x10 then Crc8Row0(i) else
    if i < 0x20 then Crc8Row1(i) else
    if i < 0x30 then Crc8Row2(i) else
    if i < 0x40 then Crc8Row3(i) else
    if i < 0x50 then Crc8Row4(i) else
    if i < 0x60 then Crc8Row5(i) else
    if i < 0x70 then Crc8Row6(i) else
    if i < 0x80 then Crc8Row7(i) else
    if i < 0x90 then Crc8Row8(i) else
    if i < 0xA0 then Crc8Row9(i) else
    if i < 0xB0 then Crc8RowA(i) else
    if i < 0xC0 then Crc8RowB(i) else
    if i < 0xD0 then Crc8RowC(i) else
    if i < 0xE0 then Crc8RowD(i) else
    if i < 0xF0 then Crc8RowE(i) else
    Crc8RowF(i)
  }

  /** Every entry of the table is eight rounds of the bit-by-bit division. */
  lemma Crc8TableIsRounds(i: bv8)
    ensures Crc8Table(i) == Rounds8(i)
  {
    if i < 0x10 {
      Crc8Row0IsRounds(i);
    } else if i < 0x20 {
      Crc8Row1IsRounds(i);
    } else if i < 0x30 {
      Crc8Row2IsRounds(i);
    } else if i < 0x40 {
      Crc8Row3IsRounds(i);
    } else if i < 0x50 {
      Crc8Row4IsRounds(i);
    } else if i < 0x60 {
      Crc8Row5IsRounds(i);
    } else if i < 0x70 {
      Crc8Row6IsRounds(i);
    } else if i < 0x80 {
      Crc8Row7IsRounds(i);
    } else if i < 0x90 {
      Crc8Row8IsRounds(i);
    } else if i < 0xA0 {
      Crc8Row9IsRounds(i);
    } else if i < 0xB0 {
      Crc8RowAIsRounds(i);
    } else if i < 0xC0 {
      Crc8RowBIsRounds(i);
    } else if i < 0xD0 {
      Crc8RowCIsRounds(i);
    } else if i < 0xE0 {
      Crc8RowDIsRounds(i);
    } else if i < 0xF0 {
      Crc8RowEIsRounds(i);
    } else {
      Crc8RowFIsRounds(i);
    }
  }

  // The 32-bit table, sixteen entries a row

  function Crc32Row0(i: bv32): bv32 {
    if i == 0x00 then 0x00000000 else if i == 0x01 then 0xCEA9C3D2 else
    if i == 0x02 then 0x69FF7CB7 else if i == 0x03 then 0xA756BF65 else
    if i == 0x04 then 0xD3FEF96E else if i == 0x05 then 0x1D573ABC else
    if i == 0x06 then 0xBA0185D9 else if i == 0x07 then 0x74A8460B else
    if i == 0x08 then 0x535109CF else if i == 0x09 then 0x9DF8CA1D else
    if i == 0x0A then 0x3AAE7578 else if i == 0x0B then 0xF407B6AA else
    if i == 0x0C then 0x80AFF0A1 else if i == 0x0D then 0x4E063373 else
    if i == 0x0E then 0xE9508C16 else 0x27F94FC4
  }

  lemma Crc32Row0IsRounds(i: bv32)
    requires 0x00 <= i <= 0x0F
    ensures Crc32Row0(i) == Rounds32(i)
  {
  }

  function Crc32Row1(i: bv32): bv32 {
    if i == 0x10 then 0xA6A2139E else if i == 0x11 then 0x680BD04C else
    if i == 0x12 then 0xCF5D6F29 else if i == 0x13 then 0x01F4ACFB else
    if i == 0x14 then 0x755CEAF0 else if i == 0x15 then 0xBBF52922 else
    if i == 0x16 then 0x1CA39647 else if i == 0x17 then 0xD20A5595 else
    if i == 0x18 then 0xF5F31A51 else if i == 0x19 then 0x3B5AD983 else
    if i == 0x1A then 0x9C0C66E6 else if i == 0x1B then 0x52A5A534 else
    if i == 0x1C then 0x260DE33F else if i == 0x1D then 0xE8A420ED else
    if i == 0x1E then 0x4FF29F88 else 0x815B5C5A
  }

  lemma Crc32Row1IsRounds(i: bv32)
    requires 0x10 <= i <= 0x1F
    ensures Crc32Row1(i) == Rounds32(i)
  {
  }

  function Crc32Row2(i: bv32): bv32 {
    if i == 0x20 then 0xB9E8DC2F else if i == 0x21 then 0x77411FFD else
    if i == 0x22 then 0xD017A098 else if i == 0x23 then 0x1EBE634A else
    if i == 0x24 then 0x6A162541 else if i == 0x25 then 0xA4BFE693 else
    if i == 0x26 then 0x03E959F6 else if i == 0x27 then 0xCD409A24 else
    if i == 0x28 then 0xEAB9D5E0 else if i == 0x29 then 0x24101632 else
    if i == 0x2A then 0x8346A957 else if i == 0x2B then 0x4DEF6A85 else
    if i == 0x2C then 0x39472C8E else if i == 0x2D then 0xF7EEEF5C else
    if i == 0x2E then 0x50B85039 else 0x9E1193EB
  }

  lemma Crc32Row2IsRounds(i: bv32)
    requires 0x20 <= i <= 0x2F
    ensures Crc32Row2(i) == Rounds32(i)
  {
  }

  function Crc32Row3(i: bv32): bv32 {
    if i == 0x30 then 0x1F4ACFB1 else if i == 0x31 then 0xD1E30C63 else
    if i == 0x32 then 0x76B5B306 else if i == 0x33 then 0xB81C70D4 else
    if i == 0x34 then 0xCCB436DF else if i == 0x35 then 0x021DF50D else
    if i == 0x36 then 0xA54B4A68 else if i == 0x37 then 0x6BE289BA else
    if i == 0x38 then 0x4C1BC67E else if i == 0x39 then 0x82B205AC else
    if i == 0x3A then 0x25E4BAC9 else if i == 0x3B then 0xEB4D791B else
    if i == 0x3C then 0x9FE53F10 else if i == 0x3D then 0x514CFCC2 else
    if i == 0x3E then 0xF61A43A7 else 0x38B38075
  }

  lemma Crc32Row3IsRounds(i: bv32)
    requires 0x30 <= i <= 0x3F
    ensures Crc32Row3(i) == Rounds32(i)
  {
  }

  function Crc32Row4(i: bv32): bv32 {
    if i == 0x40 then 0x877D434D else if i == 0x41 then 0x49D4809F else
    if i == 0x42 then 0xEE823FFA else if i == 0x43 then 0x202BFC28 else
    if i == 0x44 then 0x5483BA23 else if i == 0x45 then 0x9A2A79F1 else
    if i == 0x46 then 0x3D7CC694 else if i == 0x47 then 0xF3D50546 else
    if i == 0x48 then 0xD42C4A82 else if i == 0x49 then 0x1A858950 else
    if i == 0x4A then 0xBDD33635 else if i == 0x4B then 0x737AF5E7 else
    if i == 0x4C then 0x07D2B3EC else if i == 0x4D then 0xC97B703E else
    if i == 0x4E then 0x6E2DCF5B else 0xA0840C89
  }

  lemma Crc32Row4IsRounds(i: bv32)
    requires 0x40 <= i <= 0x4F
    ensures Crc32Row4(i) == Rounds32(i)
  {
  }

  function Crc32Row5(i: bv32): bv32 {
    if i == 0x50 then 0x21DF50D3 else if i == 0x51 then 0xEF769301 else
    if i == 0x52 then 0x48202C64 else if i == 0x53 then 0x8689EFB6 else
    if i == 0x54 then 0xF221A9BD else if i == 0x55 then 0x3C886A6F else
    if i == 0x56 then 0x9BDED50A else if i == 0x57 then 0x557716D8 else
    if i == 0x58 then 0x728E591C else if i == 0x59 then 0xBC279ACE else
    if i == 0x5A then 0x1B7125AB else if i == 0x5B then 0xD5D8E679 else
    if i == 0x5C then 0xA170A072 else if i == 0x5D then 0x6FD963A0 else
    if i == 0x5E then 0xC88FDCC5 else 0x06261F17
  }

  lemma Crc32Row5IsRounds(i: bv32)
    requires 0x50 <= i <= 0x5F
    ensures Crc32Row5(i) == Rounds32(i)
  {
  }

  function Crc32Row6(i: bv32): bv32 {
    if i == 0x60 then 0x3E959F62 else if i == 0x61 then 0xF03C5CB0 else
    if i == 0x62 then 0x576AE3D5 else if i == 0x63 then 0x99C32007 else
    if i == 0x64 then 0xED6B660C else if i == 0x65 then 0x23C2A5DE else
    if i == 0x66 then 0x84941ABB else if i == 0x67 then 0x4A3DD969 else
    if i == 0x68 then 0x6DC496AD else if i == 0x69 then 0xA36D557F else
    if i == 0x6A then 0x043BEA1A else if i == 0x6B then 0xCA9229C8 else
    if i == 0x6C then 0xBE3A6FC3 else if i == 0x6D then 0x7093AC11 else
    if i == 0x6E then 0xD7C51374 else 0x196CD0A6
  }

  lemma Crc32Row6IsRounds(i: bv32)
    requires 0x60 <= i <= 0x6F
    ensures Crc32Row6(i) == Rounds32(i)
  {
  }

  function Crc32Row7(i: bv32): bv32 {
    if i == 0x70 then 0x98378CFC else if i == 0x71 then 0x569E4F2E else
    if i == 0x72 then 0xF1C8F04B else if i == 0x73 then 0x3F613399 else
    if i == 0x74 then 0x4BC97592 else if i == 0x75 then 0x8560B640 else
    if i == 0x76 then 0x22360925 else if i == 0x77 then 0xEC9FCAF7 else
    if i == 0x78 then 0xCB668533 else if i == 0x79 then 0x05CF46E1 else
    if i == 0x7A then 0xA299F984 else if i == 0x7B then 0x6C303A56 else
    if i == 0x7C then 0x18987C5D else if i == 0x7D then 0xD631BF8F else
    if i == 0x7E then 0x716700EA else 0xBFCEC338
  }

  lemma Crc32Row7IsRounds(i: bv32)
    requires 0x70 <= i <= 0x7F
    ensures Crc32Row7(i) == Rounds32(i)
  {
  }

  function Crc32Row8(i: bv32): bv32 {
    if i == 0x80 then 0xFA567D89 else if i == 0x81 then 0x34FFBE5B else
    if i == 0x82 then 0x93A9013E else if i == 0x83 then 0x5D00C2EC else
    if i == 0x84 then 0x29A884E7 else if i == 0x85 then 0xE7014735 else
    if i == 0x86 then 0x4057F850 else if i == 0x87 then 0x8EFE3B82 else
    if i == 0x88 then 0xA9077446 else if i == 0x89 then 0x67AEB794 else
    if i == 0x8A then 0xC0F808F1 else if i == 0x8B then 0x0E51CB23 else
    if i == 0x8C then 0x7AF98D28 else if i == 0x8D then 0xB4504EFA else
    if i == 0x8E then 0x1306F19F else 0xDDAF324D
  }

  lemma Crc32Row8IsRounds(i: bv32)
    requires 0x80 <= i <= 0x8F
    ensures Crc32Row8(i) == Rounds32(i)
  {
  }

  function Crc32Row9(i: bv32): bv32 {
    if i == 0x90 then 0x5CF46E17 else if i == 0x91 then 0x925DADC5 else
    if i == 0x92 then 0x350B12A0 else if i == 0x93 then 0xFBA2D172 else
    if i == 0x94 then 0x8F0A9779 else if i == 0x95 then 0x41A354AB else
    if i == 0x96 then 0xE6F5EBCE else if i == 0x97 then 0x285C281C else
    if i == 0x98 then 0x0FA567D8 else if i == 0x99 then 0xC10CA40A else
    if i == 0x9A then 0x665A1B6F else if i == 0x9B then 0xA8F3D8BD else
    if i == 0x9C then 0xDC5B9EB6 else if i == 0x9D then 0x12F25D64 else
    if i == 0x9E then 0xB5A4E201 else 0x7B0D21D3
  }

  lemma Crc32Row9IsRounds(i: bv32)
    requires 0x90 <= i <= 0x9F
    ensures Crc32Row9(i) == Rounds32(i)
  {
  }

  function Crc32RowA(i: bv32): bv32 {
    if i == 0xA0 then 0x43BEA1A6 else if i == 0xA1 then 0x8D176274 else
    if i == 0xA2 then 0x2A41DD11 else if i == 0xA3 then 0xE4E81EC3 else
    if i == 0xA4 then 0x904058C8 else if i == 0xA5 then 0x5EE99B1A else
    if i == 0xA6 then 0xF9BF247F else if i == 0xA7 then 0x3716E7AD else
    if i == 0xA8 then 0x10EFA869 else if i == 0xA9 then 0xDE466BBB else
    if i == 0xAA then 0x7910D4DE else if i == 0xAB then 0xB7B9170C else
    if i == 0xAC then 0xC3115107 else if i == 0xAD then 0x0DB892D5 else
    if i == 0xAE then 0xAAEE2DB0 else 0x6447EE62
  }

  lemma Crc32RowAIsRounds(i: bv32)
    requires 0xA0 <= i <= 0xAF
    ensures Crc32RowA(i) == Rounds32(i)
  {
  }

  function Crc32RowB(i: bv32): bv32 {
    if i == 0xB0 then 0xE51CB238 else if i == 0xB1 then 0x2BB571EA else
    if i == 0xB2 then 0x8CE3CE8F else if i == 0xB3 then 0x424A0D5D else
    if i == 0xB4 then 0x36E24B56 else if i == 0xB5 then 0xF84B8884 else
    if i == 0xB6 then 0x5F1D37E1 else if i == 0xB7 then 0x91B4F433 else
    if i == 0xB8 then 0xB64DBBF7 else if i == 0xB9 then 0x78E47825 else
    if i == 0xBA then 0xDFB2C740 else if i == 0xBB then 0x111B0492 else
    if i == 0xBC then 0x65B34299 else if i == 0xBD then 0xAB1A814B else
    if i == 0xBE then 0x0C4C3E2E else 0xC2E5FDFC
  }

  lemma Crc32RowBIsRounds(i: bv32)
    requires 0xB0 <= i <= 0xBF
    ensures Crc32RowB(i) == Rounds32(i)
  {
  }

  function Crc32RowC(i: bv32): bv32 {
    if i == 0xC0 then 0x7D2B3EC4 else if i == 0xC1 then 0xB382FD16 else
    if i == 0xC2 then 0x14D44273 else if i == 0xC3 then 0xDA7D81A1 else
    if i == 0xC4 then 0xAED5C7AA else if i == 0xC5 then 0x607C0478 else
    if i == 0xC6 then 0xC72ABB1D else if i == 0xC7 then 0x098378CF else
    if i == 0xC8 then 0x2E7A370B else if i == 0xC9 then 0xE0D3F4D9 else
    if i == 0xCA then 0x47854BBC else if i == 0xCB then 0x892C886E else
    if i == 0xCC then 0xFD84CE65 else if i == 0xCD then 0x332D0DB7 else
    if i == 0xCE then 0x947BB2D2 else 0x5AD27100
  }

  lemma Crc32RowCIsRounds(i: bv32)
    requires 0xC0 <= i <= 0xCF
    ensures Crc32RowC(i) == Rounds32(i)
  {
  }

  function Crc32RowD(i: bv32): bv32 {
    if i == 0xD0 then 0xDB892D5A else if i == 0xD1 then 0x1520EE88 else
    if i == 0xD2 then 0xB27651ED else if i == 0xD3 then 0x7CDF923F else
    if i == 0xD4 then 0x0877D434 else if i == 0xD5 then 0xC6DE17E6 else
    if i == 0xD6 then 0x6188A883 else if i == 0xD7 then 0xAF216B51 else
    if i == 0xD8 then 0x88D82495 else if i == 0xD9 then 0x4671E747 else
    if i == 0xDA then 0xE1275822 else if i == 0xDB then 0x2F8E9BF0 else
    if i == 0xDC then 0x5B26DDFB else if i == 0xDD then 0x958F1E29 else
    if i == 0xDE then 0x32D9A14C else 0xFC70629E
  }

  lemma Crc32RowDIsRounds(i: bv32)
    requires 0xD0 <= i <= 0xDF
    ensures Crc32RowD(i) == Rounds32(i)
  {
  }

  function Crc32RowE(i: bv32): bv32 {
    if i == 0xE0 then 0xC4C3E2EB else if i == 0xE1 then 0x0A6A2139 else
    if i == 0xE2 then 0xAD3C9E5C else if i == 0xE3 then 0x63955D8E else
    if i == 0xE4 then 0x173D1B85 else if i == 0xE5 then 0xD994D857 else
    if i == 0xE6 then 0x7EC26732 else if i == 0xE7 then 0xB06BA4E0 else
    if i == 0xE8 then 0x9792EB24 else if i == 0xE9 then 0x593B28F6 else
    if i == 0xEA then 0xFE6D9793 else if i == 0xEB then 0x30C45441 else
    if i == 0xEC then 0x446C124A else if i == 0xED then 0x8AC5D198 else
    if i == 0xEE then 0x2D936EFD else 0xE33AAD2F
  }

  lemma Crc32RowEIsRounds(i: bv32)
    requires 0xE0 <= i <= 0xEF
    ensures Crc32RowE(i) == Rounds32(i)
  {
  }

  function Crc32RowF(i: bv32): bv32 {
    if i == 0xF0 then 0x6261F175 else if i == 0xF1 then 0xACC832A7 else
    if i == 0xF2 then 0x0B9E8DC2 else if i == 0xF3 then 0xC5374E10 else
    if i == 0xF4 then 0xB19F081B else if i == 0xF5 then 0x7F36CBC9 else
    if i == 0xF6 then 0xD86074AC else if i == 0xF7 then 0x16C9B77E else
    if i == 0xF8 then 0x3130F8BA else if i == 0xF9 then 0xFF993B68 else
    if i == 0xFA then 0x58CF840D else if i == 0xFB then 0x966647DF else
    if i == 0xFC then 0xE2CE01D4 else if i == 0xFD then 0x2C67C206 else
    if i == 0xFE then 0x8B317D63 else 0x4598BEB1
  }

  lemma Crc32RowFIsRounds(i: bv32)
    requires 0xF0 <= i <= 0xFF
    ensures Crc32RowF(i) == Rounds32(i)
  {
  }

  function Crc32Table(i: bv32): bv32
    requires i <= 0xFF
  {
    if i < 0x10 then Crc32Row0(i) else
    if i < 0x20 then Crc32Row1(i) else
    if i < 0x30 then Crc32Row2(i) else
    if i < 0x40 then Crc32Row3(i) else
    if i < 0x50 then Crc32Row4(i) else
    if i < 0x60 then Crc32Row5(i) else
    if i < 0x70 then Crc32Row6(i) else
    if i < 0x80 then Crc32Row7(i) else
    if i < 0x90 then Crc32Row8(i) else
    if i < 0xA0 then Crc32Row9(i) else
    if i < 0xB0 then Crc32RowA(i) else
    if i < 0xC0 then Crc32RowB(i) else
    if i < 0xD0 then Crc32RowC(i) else
    if i < 0xE0 then Crc32RowD(i) else
    if i < 0xF0 then Crc32RowE(i) else
    Crc32RowF(i)
  }

  /** Every entry of the table is eight rounds of the bit-by-bit division. */
  lemma Crc32TableIsRounds(i: bv32)
    requires i <= 0xFF
    ensures Crc32Table(i) == Rounds32(i)
  {
    if i < 0x10 {
      Crc32Row0IsRounds(i);
    } else if i < 0x20 {
      Crc32Row1IsRounds(i);
    } else if i < 0x30 {
      Crc32Row2IsRounds(i);
    } else if i < 0x40 {
      Crc32Row3IsRounds(i);
    } else if i < 0x50 {
      Crc32Row4IsRounds(i);
    } else if i < 0x60 {
      Crc32Row5IsRounds(i);
    } else if i < 0x70 {
      Crc32Row6IsRounds(i);
    } else if i < 0x80 {
      Crc32Row7IsRounds(i);
    } else if i < 0x90 {
      Crc32Row8IsRounds(i);
    } else if i < 0xA0 {
      Crc32Row9IsRounds(i);
    } else if i < 0xB0 {
      Crc32RowAIsRounds(i);
    } else if i < 0xC0 {
      Crc32RowBIsRounds(i);
    } else if i < 0xD0 {
      Crc32RowCIsRounds(i);
    } else if i < 0xE0 {
      Crc32RowDIsRounds(i);
    } else if i < 0xF0 {
      Crc32RowEIsRounds(i);
    } else {
      Crc32RowFIsRounds(i);
    }
  }
}
