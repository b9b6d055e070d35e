/**
 * The S-box of AES and its inverse, as the tables of the source, read by high and low half of the byte.
 */
module AesSbox {
  import opened GaloisField

  // The source's table sbox.
  function Sbox0(n: bv8): bv8 {
    if n == 0 then 0x63 else if n == 1 then 0x7c else if n == 2 then 0x77 else if n == 3 then 0x7b else if n == 4 then 0xf2 else
    if n == 5 then 0x6b else if n == 6 then 0x6f else if n == 7 then 0xc5 else if n == 8 then 0x30 else if n == 9 then 0x01 else
    if n == 10 then 0x67 else if n == 11 then 0x2b else if n == 12 then 0xfe else if n == 13 then 0xd7 else if n == 14 then 0xab else 0x76
  }

  function Sbox1(n: bv8): bv8 {
    if n == 0 then 0xca else if n == 1 then 0x82 else if n == 2 then 0xc9 else if n == 3 then 0x7d else if n == 4 then 0xfa else
    if n == 5 then 0x59 else if n == 6 then 0x47 else if n == 7 then 0xf0 else if n == 8 then 0xad else if n == 9 then 0xd4 else
    if n == 10 then 0xa2 else if n == 11 then 0xaf else if n == 12 then 0x9c else if n == 13 then 0xa4 else if n == 14 then 0x72 else 0xc0
  }

  function Sbox2(n: bv8): bv8 {
    if n == 0 then 0xb7 else if n == 1 then 0xfd else if n == 2 then 0x93 else if n == 3 then 0x26 else if n == 4 then 0x36 else
    if n == 5 then 0x3f else if n == 6 then 0xf7 else if n == 7 then 0xcc else if n == 8 then 0x34 else if n == 9 then 0xa5 else
    if n == 10 then 0xe5 else if n == 11 then 0xf1 else if n == 12 then 0x71 else if n == 13 then 0xd8 else if n == 14 then 0x31 else 0x15
  }

  function Sbox3(n: bv8): bv8 {
    if n == 0 then 0x04 else if n == 1 then 0xc7 else if n == 2 then 0x23 else if n == 3 then 0xc3 else if n == 4 then 0x18 else
    if n == 5 then 0x96 else if n == 6 then 0x05 else if n == 7 then 0x9a else if n == 8 then 0x07 else if n == 9 then 0x12 else
    if n == 10 then 0x80 else if n == 11 then 0xe2 else if n == 12 then 0xeb else if n == 13 then 0x27 else if n == 14 then 0xb2 else 0x75
  }

  function Sbox4(n: bv8): bv8 {
    if n == 0 then 0x09 else if n == 1 then 0x83 else if n == 2 then 0x2c else if n == 3 then 0x1a else if n == 4 then 0x1b else
    if n == 5 then 0x6e else if n == 6 then 0x5a else if n == 7 then 0xa0 else if n == 8 then 0x52 else if n == 9 then 0x3b else
    if n == 10 then 0xd6 else if n == 11 then 0xb3 else if n == 12 then 0x29 else if n == 13 then 0xe3 else if n == 14 then 0x2f else 0x84
  }

  function Sbox5(n: bv8): bv8 {
    if n == 0 then 0x53 else if n == 1 then 0xd1 else if n == 2 then 0x00 else if n == 3 then 0xed else if n == 4 then 0x20 else
    if n == 5 then 0xfc else if n == 6 then 0xb1 else if n == 7 then 0x5b else if n == 8 then 0x6a else if n == 9 then 0xcb else
    if n == 10 then 0xbe else if n == 11 then 0x39 else if n == 12 then 0x4a else if n == 13 then 0x4c else if n == 14 then 0x58 else 0xcf
  }

  function Sbox6(n: bv8): bv8 {
    if n == 0 then 0xd0 else if n == 1 then 0xef else if n == 2 then 0xaa else if n == 3 then 0xfb else if n == 4 then 0x43 else
    if n == 5 then 0x4d else if n == 6 then 0x33 else if n == 7 then 0x85 else if n == 8 then 0x45 else if n == 9 then 0xf9 else
    if n == 10 then 0x02 else if n == 11 then 0x7f else if n == 12 then 0x50 else if n == 13 then 0x3c else if n == 14 then 0x9f else 0xa8
  }

  function Sbox7(n: bv8): bv8 {
    if n == 0 then 0x51 else if n == 1 then 0xa3 else if n == 2 then 0x40 else if n == 3 then 0x8f else if n == 4 then 0x92 else
    if n == 5 then 0x9d else if n == 6 then 0x38 else if n == 7 then 0xf5 else if n == 8 then 0xbc else if n == 9 then 0xb6 else
    if n == 10 then 0xda else if n == 11 then 0x21 else if n == 12 then 0x10 else if n == 13 then 0xff else if n == 14 then 0xf3 else 0xd2
  }

  function Sbox8(n: bv8): bv8 {
    if n == 0 then 0xcd else if n == 1 then 0x0c else if n == 2 then 0x13 else if n == 3 then 0xec else if n == 4 then 0x5f else
    if n == 5 then 0x97 else if n == 6 then 0x44 else if n == 7 then 0x17 else if n == 8 then 0xc4 else if n == 9 then 0xa7 else
    if n == 10 then 0x7e else if n == 11 then 0x3d else if n == 12 then 0x64 else if n == 13 then 0x5d else if n == 14 then 0x19 else 0x73
  }

  function Sbox9(n: bv8): bv8 {
    if n == 0 then 0x60 else if n == 1 then 0x81 else if n == 2 then 0x4f else if n == 3 then 0xdc else if n == 4 then 0x22 else
    if n == 5 then 0x2a else if n == 6 then 0x90 else if n == 7 then 0x88 else if n == 8 then 0x46 else if n == 9 then 0xee else
    if n == 10 then 0xb8 else if n == 11 then 0x14 else if n == 12 then 0xde else if n == 13 then 0x5e else if n == 14 then 0x0b else 0xdb
  }

  function SboxA(n: bv8): bv8 {
    if n == 0 then 0xe0 else if n == 1 then 0x32 else if n == 2 then 0x3a else if n == 3 then 0x0a else if n == 4 then 0x49 else
    if n == 5 then 0x06 else if n == 6 then 0x24 else if n == 7 then 0x5c else if n == 8 then 0xc2 else if n == 9 then 0xd3 else
    if n == 10 then 0xac else if n == 11 then 0x62 else if n == 12 then 0x91 else if n == 13 then 0x95 else if n == 14 then 0xe4 else 0x79
  }

  function SboxB(n: bv8): bv8 {
    if n == 0 then 0xe7 else if n == 1 then 0xc8 else if n == 2 then 0x37 else if n == 3 then 0x6d else if n == 4 then 0x8d else
    if n == 5 then 0xd5 else if n == 6 then 0x4e else if n == 7 then 0xa9 else if n == 8 then 0x6c else if n == 9 then 0x56 else
    if n == 10 then 0xf4 else if n == 11 then 0xea else if n == 12 then 0x65 else if n == 13 then 0x7a else if n == 14 then 0xae else 0x08
  }

  function SboxC(n: bv8): bv8 {
    if n == 0 then 0xba else if n == 1 then 0x78 else if n == 2 then 0x25 else if n == 3 then 0x2e else if n == 4 then 0x1c else
    if n == 5 then 0xa6 else if n == 6 then 0xb4 else if n == 7 then 0xc6 else if n == 8 then 0xe8 else if n == 9 then 0xdd else
    if n == 10 then 0x74 else if n == 11 then 0x1f else if n == 12 then 0x4b else if n == 13 then 0xbd else if n == 14 then 0x8b else 0x8a
  }

  function SboxD(n: bv8): bv8 {
    if n == 0 then 0x70 else if n == 1 then 0x3e else if n == 2 then 0xb5 else if n == 3 then 0x66 else if n == 4 then 0x48 else
    if n == 5 then 0x03 else if n == 6 then 0xf6 else if n == 7 then 0x0e else if n == 8 then 0x61 else if n == 9 then 0x35 else
    if n == 10 then 0x57 else if n == 11 then 0xb9 else if n == 12 then 0x86 else if n == 13 then 0xc1 else if n == 14 then 0x1d else 0x9e
  }

  function SboxE(n: bv8): bv8 {
    if n == 0 then 0xe1 else if n == 1 then 0xf8 else if n == 2 then 0x98 else if n == 3 then 0x11 else if n == 4 then 0x69 else
    if n == 5 then 0xd9 else if n == 6 then 0x8e else if n == 7 then 0x94 else if n == 8 then 0x9b else if n == 9 then 0x1e else
    if n == 10 then 0x87 else if n == 11 then 0xe9 else if n == 12 then 0xce else if n == 13 then 0x55 else if n == 14 then 0x28 else 0xdf
  }

  function SboxF(n: bv8): bv8 {
    if n == 0 then 0x8c else if n == 1 then 0xa1 else if n == 2 then 0x89 else if n == 3 then 0x0d else if n == 4 then 0xbf else
    if n == 5 then 0xe6 else if n == 6 then 0x42 else if n == 7 then 0x68 else if n == 8 then 0x41 else if n == 9 then 0x99 else
    if n == 10 then 0x2d else if n == 11 then 0x0f else if n == 12 then 0xb0 else if n == 13 then 0x54 else if n == 14 then 0xbb else 0x16
  }

  function Sbox(x: bv8): bv8 {
    var n := x & 0x0f;
    if x >> 4 == 0 then Sbox0(n)
    else if x >> 4 == 1 then Sbox1(n)
    else if x >> 4 == 2 then Sbox2(n)
    else if x >> 4 == 3 then Sbox3(n)
    else if x >> 4 == 4 then Sbox4(n)
    else if x >> 4 == 5 then Sbox5(n)
    else if x >> 4 == 6 then Sbox6(n)
    else if x >> 4 == 7 then Sbox7(n)
    else if x >> 4 == 8 then Sbox8(n)
    else if x >> 4 == 9 then Sbox9(n)
    else if x >> 4 == 10 then SboxA(n)
    else if x >> 4 == 11 then SboxB(n)
    else if x >> 4 == 12 then SboxC(n)
    else if x >> 4 == 13 then SboxD(n)
    else if x >> 4 == 14 then SboxE(n)
    else SboxF(n)
  }

  // The source's table rsbox.
  function InvSbox0(n: bv8): bv8 {
    if n == 0 then 0x52 else if n == 1 then 0x09 else if n == 2 then 0x6a else if n == 3 then 0xd5 else if n == 4 then 0x30 else
    if n == 5 then 0x36 else if n == 6 then 0xa5 else if n == 7 then 0x38 else if n == 8 then 0xbf else if n == 9 then 0x40 else
    if n == 10 then 0xa3 else if n == 11 then 0x9e else if n == 12 then 0x81 else if n == 13 then 0xf3 else if n == 14 then 0xd7 else 0xfb
  }

  function InvSbox1(n: bv8): bv8 {
    if n == 0 then 0x7c else if n == 1 then 0xe3 else if n == 2 then 0x39 else if n == 3 then 0x82 else if n == 4 then 0x9b else
    if n == 5 then 0x2f else if n == 6 then 0xff else if n == 7 then 0x87 else if n == 8 then 0x34 else if n == 9 then 0x8e else
    if n == 10 then 0x43 else if n == 11 then 0x44 else if n == 12 then 0xc4 else if n == 13 then 0xde else if n == 14 then 0xe9 else 0xcb
  }

  function InvSbox2(n: bv8): bv8 {
    if n == 0 then 0x54 else if n == 1 then 0x7b else if n == 2 then 0x94 else if n == 3 then 0x32 else if n == 4 then 0xa6 else
    if n == 5 then 0xc2 else if n == 6 then 0x23 else if n == 7 then 0x3d else if n == 8 then 0xee else if n == 9 then 0x4c else
    if n == 10 then 0x95 else if n == 11 then 0x0b else if n == 12 then 0x42 else if n == 13 then 0xfa else if n == 14 then 0xc3 else 0x4e
  }

  function InvSbox3(n: bv8): bv8 {
    if n == 0 then 0x08 else if n == 1 then 0x2e else if n == 2 then 0xa1 else if n == 3 then 0x66 else if n == 4 then 0x28 else
    if n == 5 then 0xd9 else if n == 6 then 0x24 else if n == 7 then 0xb2 else if n == 8 then 0x76 else if n == 9 then 0x5b else
    if n == 10 then 0xa2 else if n == 11 then 0x49 else if n == 12 then 0x6d else if n == 13 then 0x8b else if n == 14 then 0xd1 else 0x25
  }

  function InvSbox4(n: bv8): bv8 {
    if n == 0 then 0x72 else if n == 1 then 0xf8 else if n == 2 then 0xf6 else if n == 3 then 0x64 else if n == 4 then 0x86 else
    if n == 5 then 0x68 else if n == 6 then 0x98 else if n == 7 then 0x16 else if n == 8 then 0xd4 else if n == 9 then 0xa4 else
    if n == 10 then 0x5c else if n == 11 then 0xcc else if n == 12 then 0x5d else if n == 13 then 0x65 else if n == 14 then 0xb6 else 0x92
  }

  function InvSbox5(n: bv8): bv8 {
    if n == 0 then 0x6c else if n == 1 then 0x70 else if n == 2 then 0x48 else if n == 3 then 0x50 else if n == 4 then 0xfd else
    if n == 5 then 0xed else if n == 6 then 0xb9 else if n == 7 then 0xda else if n == 8 then 0x5e else if n == 9 then 0x15 else
    if n == 10 then 0x46 else if n == 11 then 0x57 else if n == 12 then 0xa7 else if n == 13 then 0x8d else if n == 14 then 0x9d else 0x84
  }

  function InvSbox6(n: bv8): bv8 {
    if n == 0 then 0x90 else if n == 1 then 0xd8 else if n == 2 then 0xab else if n == 3 then 0x00 else if n == 4 then 0x8c else
    if n == 5 then 0xbc else if n == 6 then 0xd3 else if n == 7 then 0x0a else if n == 8 then 0xf7 else if n == 9 then 0xe4 else
    if n == 10 then 0x58 else if n == 11 then 0x05 else if n == 12 then 0xb8 else if n == 13 then 0xb3 else if n == 14 then 0x45 else 0x06
  }

  function InvSbox7(n: bv8): bv8 {
    if n == 0 then 0xd0 else if n == 1 then 0x2c else if n == 2 then 0x1e else if n == 3 then 0x8f else if n == 4 then 0xca else
    if n == 5 then 0x3f else if n == 6 then 0x0f else if n == 7 then 0x02 else if n == 8 then 0xc1 else if n == 9 then 0xaf else
    if n == 10 then 0xbd else if n == 11 then 0x03 else if n == 12 then 0x01 else if n == 13 then 0x13 else if n == 14 then 0x8a else 0x6b
  }

  function InvSbox8(n: bv8): bv8 {
    if n == 0 then 0x3a else if n == 1 then 0x91 else if n == 2 then 0x11 else if n == 3 then 0x41 else if n == 4 then 0x4f else
    if n == 5 then 0x67 else if n == 6 then 0xdc else if n == 7 then 0xea else if n == 8 then 0x97 else if n == 9 then 0xf2 else
    if n == 10 then 0xcf else if n == 11 then 0xce else if n == 12 then 0xf0 else if n == 13 then 0xb4 else if n == 14 then 0xe6 else 0x73
  }

  function InvSbox9(n: bv8): bv8 {
    if n == 0 then 0x96 else if n == 1 then 0xac else if n == 2 then 0x74 else if n == 3 then 0x22 else if n == 4 then 0xe7 else
    if n == 5 then 0xad else if n == 6 then 0x35 else if n == 7 then 0x85 else if n == 8 then 0xe2 else if n == 9 then 0xf9 else
    if n == 10 then 0x37 else if n == 11 then 0xe8 else if n == 12 then 0x1c else if n == 13 then 0x75 else if n == 14 then 0xdf else 0x6e
  }

  function InvSboxA(n: bv8): bv8 {
    if n == 0 then 0x47 else if n == 1 then 0xf1 else if n == 2 then 0x1a else if n == 3 then 0x71 else if n == 4 then 0x1d else
    if n == 5 then 0x29 else if n == 6 then 0xc5 else if n == 7 then 0x89 else if n == 8 then 0x6f else if n == 9 then 0xb7 else
    if n == 10 then 0x62 else if n == 11 then 0x0e else if n == 12 then 0xaa else if n == 13 then 0x18 else if n == 14 then 0xbe else 0x1b
  }

  function InvSboxB(n: bv8): bv8 {
    if n == 0 then 0xfc else if n == 1 then 0x56 else if n == 2 then 0x3e else if n == 3 then 0x4b else if n == 4 then 0xc6 else
    if n == 5 then 0xd2 else if n == 6 then 0x79 else if n == 7 then 0x20 else if n == 8 then 0x9a else if n == 9 then 0xdb else
    if n == 10 then 0xc0 else if n == 11 then 0xfe else if n == 12 then 0x78 else if n == 13 then 0xcd else if n == 14 then 0x5a else 0xf4
  }

  function InvSboxC(n: bv8): bv8 {
    if n == 0 then 0x1f else if n == 1 then 0xdd else if n == 2 then 0xa8 else if n == 3 then 0x33 else if n == 4 then 0x88 else
    if n == 5 then 0x07 else if n == 6 then 0xc7 else if n == 7 then 0x31 else if n == 8 then 0xb1 else if n == 9 then 0x12 else
    if n == 10 then 0x10 else if n == 11 then 0x59 else if n == 12 then 0x27 else if n == 13 then 0x80 else if n == 14 then 0xec else 0x5f
  }

  function InvSboxD(n: bv8): bv8 {
    if n == 0 then 0x60 else if n == 1 then 0x51 else if n == 2 then 0x7f else if n == 3 then 0xa9 else if n == 4 then 0x19 else
    if n == 5 then 0xb5 else if n == 6 then 0x4a else if n == 7 then 0x0d else if n == 8 then 0x2d else if n == 9 then 0xe5 else
    if n == 10 then 0x7a else if n == 11 then 0x9f else if n == 12 then 0x93 else if n == 13 then 0xc9 else if n == 14 then 0x9c else 0xef
  }

  function InvSboxE(n: bv8): bv8 {
    if n == 0 then 0xa0 else if n == 1 then 0xe0 else if n == 2 then 0x3b else if n == 3 then 0x4d else if n == 4 then 0xae else
    if n == 5 then 0x2a else if n == 6 then 0xf5 else if n == 7 then 0xb0 else if n == 8 then 0xc8 else if n == 9 then 0xeb else
    if n == 10 then 0xbb else if n == 11 then 0x3c else if n == 12 then 0x83 else if n == 13 then 0x53 else if n == 14 then 0x99 else 0x61
  }

  function InvSboxF(n: bv8): bv8 {
    if n == 0 then 0x17 else if n == 1 then 0x2b else if n == 2 then 0x04 else if n == 3 then 0x7e else if n == 4 then 0xba else
    if n == 5 then 0x77 else if n == 6 then 0xd6 else if n == 7 then 0x26 else if n == 8 then 0xe1 else if n == 9 then 0x69 else
    if n == 10 then 0x14 else if n == 11 then 0x63 else if n == 12 then 0x55 else if n == 13 then 0x21 else if n == 14 then 0x0c else 0x7d
  }

  function InvSbox(x: bv8): bv8 {
    var n := x & 0x0f;
    if x >> 4 == 0 then InvSbox0(n)
    else if x >> 4 == 1 then InvSbox1(n)
    else if x >> 4 == 2 then InvSbox2(n)
    else if x >> 4 == 3 then InvSbox3(n)
    else if x >> 4 == 4 then InvSbox4(n)
    else if x >> 4 == 5 then InvSbox5(n)
    else if x >> 4 == 6 then InvSbox6(n)
    else if x >> 4 == 7 then InvSbox7(n)
    else if x >> 4 == 8 then InvSbox8(n)
    else if x >> 4 == 9 then InvSbox9(n)
    else if x >> 4 == 10 then InvSboxA(n)
    else if x >> 4 == 11 then InvSboxB(n)
    else if x >> 4 == 12 then InvSboxC(n)
    else if x >> 4 == 13 then InvSboxD(n)
    else if x >> 4 == 14 then InvSboxE(n)
    else InvSboxF(n)
  }

  lemma InvSboxUndoesSbox(x: bv8)
    ensures InvSbox(Sbox(x)) == x
  {
  }

  lemma SboxUndoesInvSbox(x: bv8)
    ensures Sbox(InvSbox(x)) == x
  {
  }

  // ---------- The table is the one of FIPS 197, section 5.1.1 ----------

  function Affine(y: bv8): bv8 {
    y ^ y.RotateLeft(1) ^ y.RotateLeft(2) ^ y.RotateLeft(3) ^ y.RotateLeft(4) ^ 0x63
  }

  function InvAffine(s: bv8): bv8 {
    s.RotateLeft(1) ^ s.RotateLeft(3) ^ s.RotateLeft(6) ^ 0x05
  }

  lemma AffineOfInvAffine(s: bv8)
    ensures Affine(InvAffine(s)) == s
  {
  }

  lemma InverseInTable(x: bv8)
    requires x != 0
    ensures FieldProduct(x, InvAffine(Sbox(x))) == 1
  {
  }

  // Every byte but zero is sent to the affine image of its multiplicative inverse, zero to that of zero.
  lemma SboxIsAffineOfInverse(x: bv8)
    ensures exists y :: Sbox(x) == Affine(y) && (if x == 0 then y == 0 else FieldProduct(x, y) == 1)
  {
    AffineOfInvAffine(Sbox(x));
    if x != 0 {
      InverseInTable(x);
    }
  }
}
