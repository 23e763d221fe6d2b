/** The substitution boxes of AES and arithmetic in GF(2^8), sections 4.2 and 5.1.1 of FIPS 197. */
module AesTables {
  /** The k-th of sixteen values. */
  function Row(k: bv8, v0: bv8, v1: bv8, v2: bv8, v3: bv8, v4: bv8, v5: bv8, v6: bv8, v7: bv8,
               v8: bv8, v9: bv8, vA: bv8, vB: bv8, vC: bv8, vD: bv8, vE: bv8, vF: bv8): bv8
  {
    if k < 8 then
      if k < 4 then
        if k < 2 then (if k < 1 then v0 else v1) else (if k < 3 then v2 else v3)
      else
        if k < 6 then (if k < 5 then v4 else v5) else (if k < 7 then v6 else v7)
    else
      if k < 12 then
        if k < 10 then (if k < 9 then v8 else v9) else (if k < 11 then vA else vB)
      else
        if k < 14 then (if k < 13 then vC else vD) else (if k < 15 then vE else vF)
  }

  /** The forward S-box. */
  function SBox(x: bv8): bv8 {
    var k := x & 15;
    Row(x >> 4,
      Row(k, 0x63, 0x7C, 0x77, 0x7B, 0xF2, 0x6B, 0x6F, 0xC5, 0x30, 0x01, 0x67, 0x2B, 0xFE, 0xD7, 0xAB, 0x76),
      Row(k, 0xCA, 0x82, 0xC9, 0x7D, 0xFA, 0x59, 0x47, 0xF0, 0xAD, 0xD4, 0xA2, 0xAF, 0x9C, 0xA4, 0x72, 0xC0),
      Row(k, 0xB7, 0xFD, 0x93, 0x26, 0x36, 0x3F, 0xF7, 0xCC, 0x34, 0xA5, 0xE5, 0xF1, 0x71, 0xD8, 0x31, 0x15),
      Row(k, 0x04, 0xC7, 0x23, 0xC3, 0x18, 0x96, 0x05, 0x9A, 0x07, 0x12, 0x80, 0xE2, 0xEB, 0x27, 0xB2, 0x75),
      Row(k, 0x09, 0x83, 0x2C, 0x1A, 0x1B, 0x6E, 0x5A, 0xA0, 0x52, 0x3B, 0xD6, 0xB3, 0x29, 0xE3, 0x2F, 0x84),
      Row(k, 0x53, 0xD1, 0x00, 0xED, 0x20, 0xFC, 0xB1, 0x5B, 0x6A, 0xCB, 0xBE, 0x39, 0x4A, 0x4C, 0x58, 0xCF),
      Row(k, 0xD0, 0xEF, 0xAA, 0xFB, 0x43, 0x4D, 0x33, 0x85, 0x45, 0xF9, 0x02, 0x7F, 0x50, 0x3C, 0x9F, 0xA8),
      Row(k, 0x51, 0xA3, 0x40, 0x8F, 0x92, 0x9D, 0x38, 0xF5, 0xBC, 0xB6, 0xDA, 0x21, 0x10, 0xFF, 0xF3, 0xD2),
      Row(k, 0xCD, 0x0C, 0x13, 0xEC, 0x5F, 0x97, 0x44, 0x17, 0xC4, 0xA7, 0x7E, 0x3D, 0x64, 0x5D, 0x19, 0x73),
      Row(k, 0x60, 0x81, 0x4F, 0xDC, 0x22, 0x2A, 0x90, 0x88, 0x46, 0xEE, 0xB8, 0x14, 0xDE, 0x5E, 0x0B, 0xDB),
      Row(k, 0xE0, 0x32, 0x3A, 0x0A, 0x49, 0x06, 0x24, 0x5C, 0xC2, 0xD3, 0xAC, 0x62, 0x91, 0x95, 0xE4, 0x79),
      Row(k, 0xE7, 0xC8, 0x37, 0x6D, 0x8D, 0xD5, 0x4E, 0xA9, 0x6C, 0x56, 0xF4, 0xEA, 0x65, 0x7A, 0xAE, 0x08),
      Row(k, 0xBA, 0x78, 0x25, 0x2E, 0x1C, 0xA6, 0xB4, 0xC6, 0xE8, 0xDD, 0x74, 0x1F, 0x4B, 0xBD, 0x8B, 0x8A),
      Row(k, 0x70, 0x3E, 0xB5, 0x66, 0x48, 0x03, 0xF6, 0x0E, 0x61, 0x35, 0x57, 0xB9, 0x86, 0xC1, 0x1D, 0x9E),
      Row(k, 0xE1, 0xF8, 0x98, 0x11, 0x69, 0xD9, 0x8E, 0x94, 0x9B, 0x1E, 0x87, 0xE9, 0xCE, 0x55, 0x28, 0xDF),
      Row(k, 0x8C, 0xA1, 0x89, 0x0D, 0xBF, 0xE6, 0x42, 0x68, 0x41, 0x99, 0x2D, 0x0F, 0xB0, 0x54, 0xBB, 0x16))
  }

  /** The reverse S-box. */
  function InvSBox(x: bv8): bv8 {
    var k := x & 15;
    Row(x >> 4,
      Row(k, 0x52, 0x09, 0x6A, 0xD5, 0x30, 0x36, 0xA5, 0x38, 0xBF, 0x40, 0xA3, 0x9E, 0x81, 0xF3, 0xD7, 0xFB),
      Row(k, 0x7C, 0xE3, 0x39, 0x82, 0x9B, 0x2F, 0xFF, 0x87, 0x34, 0x8E, 0x43, 0x44, 0xC4, 0xDE, 0xE9, 0xCB),
      Row(k, 0x54, 0x7B, 0x94, 0x32, 0xA6, 0xC2, 0x23, 0x3D, 0xEE, 0x4C, 0x95, 0x0B, 0x42, 0xFA, 0xC3, 0x4E),
      Row(k, 0x08, 0x2E, 0xA1, 0x66, 0x28, 0xD9, 0x24, 0xB2, 0x76, 0x5B, 0xA2, 0x49, 0x6D, 0x8B, 0xD1, 0x25),
      Row(k, 0x72, 0xF8, 0xF6, 0x64, 0x86, 0x68, 0x98, 0x16, 0xD4, 0xA4, 0x5C, 0xCC, 0x5D, 0x65, 0xB6, 0x92),
      Row(k, 0x6C, 0x70, 0x48, 0x50, 0xFD, 0xED, 0xB9, 0xDA, 0x5E, 0x15, 0x46, 0x57, 0xA7, 0x8D, 0x9D, 0x84),
      Row(k, 0x90, 0xD8, 0xAB, 0x00, 0x8C, 0xBC, 0xD3, 0x0A, 0xF7, 0xE4, 0x58, 0x05, 0xB8, 0xB3, 0x45, 0x06),
      Row(k, 0xD0, 0x2C, 0x1E, 0x8F, 0xCA, 0x3F, 0x0F, 0x02, 0xC1, 0xAF, 0xBD, 0x03, 0x01, 0x13, 0x8A, 0x6B),
      Row(k, 0x3A, 0x91, 0x11, 0x41, 0x4F, 0x67, 0xDC, 0xEA, 0x97, 0xF2, 0xCF, 0xCE, 0xF0, 0xB4, 0xE6, 0x73),
      Row(k, 0x96, 0xAC, 0x74, 0x22, 0xE7, 0xAD, 0x35, 0x85, 0xE2, 0xF9, 0x37, 0xE8, 0x1C, 0x75, 0xDF, 0x6E),
      Row(k, 0x47, 0xF1, 0x1A, 0x71, 0x1D, 0x29, 0xC5, 0x89, 0x6F, 0xB7, 0x62, 0x0E, 0xAA, 0x18, 0xBE, 0x1B),
      Row(k, 0xFC, 0x56, 0x3E, 0x4B, 0xC6, 0xD2, 0x79, 0x20, 0x9A, 0xDB, 0xC0, 0xFE, 0x78, 0xCD, 0x5A, 0xF4),
      Row(k, 0x1F, 0xDD, 0xA8, 0x33, 0x88, 0x07, 0xC7, 0x31, 0xB1, 0x12, 0x10, 0x59, 0x27, 0x80, 0xEC, 0x5F),
      Row(k, 0x60, 0x51, 0x7F, 0xA9, 0x19, 0xB5, 0x4A, 0x0D, 0x2D, 0xE5, 0x7A, 0x9F, 0x93, 0xC9, 0x9C, 0xEF),
      Row(k, 0xA0, 0xE0, 0x3B, 0x4D, 0xAE, 0x2A, 0xF5, 0xB0, 0xC8, 0xEB, 0xBB, 0x3C, 0x83, 0x53, 0x99, 0x61),
      Row(k, 0x17, 0x2B, 0x04, 0x7E, 0xBA, 0x77, 0xD6, 0x26, 0xE1, 0x69, 0x14, 0x63, 0x55, 0x21, 0x0C, 0x7D))
  }

  lemma {:induction false} SBoxInverse(x: bv8)
    ensures InvSBox(SBox(x)) == x
  {}

  lemma {:induction false} InvSBoxInverse(x: bv8)
    ensures SBox(InvSBox(x)) == x
  {}

  /** Multiplication by x in GF(2^8). */
  function Xtime(x: bv8): bv8 {
    (x << 1) ^ if x & 0x80 != 0 then 0x1B else 0
  }

  /** Addition in GF(2^8). */
  function Xor(x: bv8, y: bv8): bv8 { x ^ y }

  function Xor4(a: bv8, b: bv8, c: bv8, d: bv8): bv8 { Xor(Xor(a, b), Xor(c, d)) }

  lemma {:induction false} XtimeXor(x: bv8, y: bv8)
    ensures Xtime(Xor(x, y)) == Xor(Xtime(x), Xtime(y))
  {
    assert (x ^ y) << 1 == (x << 1) ^ (y << 1) && (x ^ y) & 0x80 == (x & 0x80) ^ (y & 0x80);
    assert (x & 0x80 == 0 || x & 0x80 == 0x80) && (y & 0x80 == 0 || y & 0x80 == 0x80);
  }

  lemma {:induction false} XorLaws(x: bv8, y: bv8, z: bv8)
    ensures Xor(Xor(x, y), z) == Xor(x, Xor(y, z)) && Xor(x, y) == Xor(y, x)
    ensures Xor(x, x) == 0 && Xor(x, 0) == x
  {}

  lemma {:induction false} Regroup(a: bv8, b: bv8, c: bv8, d: bv8)
    ensures Xor(Xor(a, b), Xor(c, d)) == Xor(Xor(a, c), Xor(b, d))
  {
    hide Xor;
    XorLaws(a, b, Xor(c, d));
    XorLaws(b, c, d);
    XorLaws(c, b, d);
    XorLaws(a, c, Xor(b, d));
  }

  lemma {:induction false} XorRotate(a: bv8, b: bv8, c: bv8, d: bv8)
    ensures Xor4(a, b, c, d) == Xor4(d, a, b, c)
  {
    hide Xor;
    XorLaws(Xor(a, b), c, d);
    XorLaws(Xor(Xor(a, b), c), d, 0);
    XorLaws(d, Xor(a, b), c);
    XorLaws(a, b, c);
    XorLaws(d, a, Xor(b, c));
  }

  /** Multiplication in GF(2^8). */
  function Mul(x: bv8, y: bv8): bv8 {
    var x1 := Xtime(x);
    var x2 := Xtime(x1);
    var x3 := Xtime(x2);
    var x4 := Xtime(x3);
    var x5 := Xtime(x4);
    var x6 := Xtime(x5);
    var x7 := Xtime(x6);
    (if y & 0x01 != 0 then x else 0) ^ (if y & 0x02 != 0 then x1 else 0)
    ^ (if y & 0x04 != 0 then x2 else 0) ^ (if y & 0x08 != 0 then x3 else 0)
    ^ (if y & 0x10 != 0 then x4 else 0) ^ (if y & 0x20 != 0 then x5 else 0)
    ^ (if y & 0x40 != 0 then x6 else 0) ^ (if y & 0x80 != 0 then x7 else 0)
  }

  /** The S-box as the standard defines it: an affine map of the multiplicative inverse. */
  function Affine(x: bv8): bv8 {
    x ^ Rotated(x, 1) ^ Rotated(x, 2) ^ Rotated(x, 3) ^ Rotated(x, 4) ^ 0x63
  }

  function Rotated(x: bv8, n: bv4): bv8
    requires n <= 8
  {
    (x << n) | (x >> (8 - n))
  }

  function InvAffine(x: bv8): bv8 {
    Rotated(x, 1) ^ Rotated(x, 3) ^ Rotated(x, 6) ^ 0x05
  }

  lemma {:induction false} AffineInverse(x: bv8)
    ensures Affine(InvAffine(x)) == x && InvAffine(Affine(x)) == x
  {}

  /** The table is what the standard says: the affine map of the multiplicative inverse, and of 0 for 0. */
  lemma {:induction false} SBoxByInverse(x: bv8)
    ensures SBox(x) == Affine(InvAffine(SBox(x)))
    ensures x == 0 ==> InvAffine(SBox(x)) == 0
    ensures x != 0 ==> Mul(x, InvAffine(SBox(x))) == 1
  {
    hide SBox, Affine, InvAffine, Mul;
    AffineInverse(SBox(x));
    if x == 0 { SBoxZero(); } else { SBoxProduct(x); }
  }

  lemma {:induction false} SBoxZero()
    ensures InvAffine(SBox(0)) == 0
  {
    assert SBox(0) == 0x63;
  }

  lemma {:induction false} SBoxProduct(x: bv8)
    requires x != 0
    ensures Mul(x, InvAffine(SBox(x))) == 1
  {
    hide *;
    if x < 0x80 { LowerProduct(x); } else { UpperProduct(x); }
  }

  lemma {:induction false} LowerProduct(x: bv8)
    requires 0 < x < 0x80
    ensures Mul(x, InvAffine(SBox(x))) == 1
  {}

  lemma {:induction false} UpperProduct(x: bv8)
    requires 0x80 <= x
    ensures Mul(x, InvAffine(SBox(x))) == 1
  {}
}
