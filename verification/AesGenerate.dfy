/** The tables as they are generated on first use, by powers and logarithms in GF(2^8). */
module AesGenerate {
  import opened AesTables
  import opened AesCipher
  import opened AesKeys

  /** The powers of the generator 3. */
  function Power(x: bv8): bv8 {
    var k := x & 15;
    Row(x >> 4,
      Row(k, 0x01, 0x03, 0x05, 0x0F, 0x11, 0x33, 0x55, 0xFF, 0x1A, 0x2E, 0x72, 0x96, 0xA1, 0xF8, 0x13, 0x35),
      Row(k, 0x5F, 0xE1, 0x38, 0x48, 0xD8, 0x73, 0x95, 0xA4, 0xF7, 0x02, 0x06, 0x0A, 0x1E, 0x22, 0x66, 0xAA),
      Row(k, 0xE5, 0x34, 0x5C, 0xE4, 0x37, 0x59, 0xEB, 0x26, 0x6A, 0xBE, 0xD9, 0x70, 0x90, 0xAB, 0xE6, 0x31),
      Row(k, 0x53, 0xF5, 0x04, 0x0C, 0x14, 0x3C, 0x44, 0xCC, 0x4F, 0xD1, 0x68, 0xB8, 0xD3, 0x6E, 0xB2, 0xCD),
      Row(k, 0x4C, 0xD4, 0x67, 0xA9, 0xE0, 0x3B, 0x4D, 0xD7, 0x62, 0xA6, 0xF1, 0x08, 0x18, 0x28, 0x78, 0x88),
      Row(k, 0x83, 0x9E, 0xB9, 0xD0, 0x6B, 0xBD, 0xDC, 0x7F, 0x81, 0x98, 0xB3, 0xCE, 0x49, 0xDB, 0x76, 0x9A),
      Row(k, 0xB5, 0xC4, 0x57, 0xF9, 0x10, 0x30, 0x50, 0xF0, 0x0B, 0x1D, 0x27, 0x69, 0xBB, 0xD6, 0x61, 0xA3),
      Row(k, 0xFE, 0x19, 0x2B, 0x7D, 0x87, 0x92, 0xAD, 0xEC, 0x2F, 0x71, 0x93, 0xAE, 0xE9, 0x20, 0x60, 0xA0),
      Row(k, 0xFB, 0x16, 0x3A, 0x4E, 0xD2, 0x6D, 0xB7, 0xC2, 0x5D, 0xE7, 0x32, 0x56, 0xFA, 0x15, 0x3F, 0x41),
      Row(k, 0xC3, 0x5E, 0xE2, 0x3D, 0x47, 0xC9, 0x40, 0xC0, 0x5B, 0xED, 0x2C, 0x74, 0x9C, 0xBF, 0xDA, 0x75),
      Row(k, 0x9F, 0xBA, 0xD5, 0x64, 0xAC, 0xEF, 0x2A, 0x7E, 0x82, 0x9D, 0xBC, 0xDF, 0x7A, 0x8E, 0x89, 0x80),
      Row(k, 0x9B, 0xB6, 0xC1, 0x58, 0xE8, 0x23, 0x65, 0xAF, 0xEA, 0x25, 0x6F, 0xB1, 0xC8, 0x43, 0xC5, 0x54),
      Row(k, 0xFC, 0x1F, 0x21, 0x63, 0xA5, 0xF4, 0x07, 0x09, 0x1B, 0x2D, 0x77, 0x99, 0xB0, 0xCB, 0x46, 0xCA),
      Row(k, 0x45, 0xCF, 0x4A, 0xDE, 0x79, 0x8B, 0x86, 0x91, 0xA8, 0xE3, 0x3E, 0x42, 0xC6, 0x51, 0xF3, 0x0E),
      Row(k, 0x12, 0x36, 0x5A, 0xEE, 0x29, 0x7B, 0x8D, 0x8C, 0x8F, 0x8A, 0x85, 0x94, 0xA7, 0xF2, 0x0D, 0x17),
      Row(k, 0x39, 0x4B, 0xDD, 0x7C, 0x84, 0x97, 0xA2, 0xFD, 0x1C, 0x24, 0x6C, 0xB4, 0xC7, 0x52, 0xF6, 0x01))
  }

  /** The logarithms to the base 3; that of 1 is 255, and 0 has none. */
  function Log(x: bv8): bv8 {
    var k := x & 15;
    Row(x >> 4,
      Row(k, 0x00, 0xFF, 0x19, 0x01, 0x32, 0x02, 0x1A, 0xC6, 0x4B, 0xC7, 0x1B, 0x68, 0x33, 0xEE, 0xDF, 0x03),
      Row(k, 0x64, 0x04, 0xE0, 0x0E, 0x34, 0x8D, 0x81, 0xEF, 0x4C, 0x71, 0x08, 0xC8, 0xF8, 0x69, 0x1C, 0xC1),
      Row(k, 0x7D, 0xC2, 0x1D, 0xB5, 0xF9, 0xB9, 0x27, 0x6A, 0x4D, 0xE4, 0xA6, 0x72, 0x9A, 0xC9, 0x09, 0x78),
      Row(k, 0x65, 0x2F, 0x8A, 0x05, 0x21, 0x0F, 0xE1, 0x24, 0x12, 0xF0, 0x82, 0x45, 0x35, 0x93, 0xDA, 0x8E),
      Row(k, 0x96, 0x8F, 0xDB, 0xBD, 0x36, 0xD0, 0xCE, 0x94, 0x13, 0x5C, 0xD2, 0xF1, 0x40, 0x46, 0x83, 0x38),
      Row(k, 0x66, 0xDD, 0xFD, 0x30, 0xBF, 0x06, 0x8B, 0x62, 0xB3, 0x25, 0xE2, 0x98, 0x22, 0x88, 0x91, 0x10),
      Row(k, 0x7E, 0x6E, 0x48, 0xC3, 0xA3, 0xB6, 0x1E, 0x42, 0x3A, 0x6B, 0x28, 0x54, 0xFA, 0x85, 0x3D, 0xBA),
      Row(k, 0x2B, 0x79, 0x0A, 0x15, 0x9B, 0x9F, 0x5E, 0xCA, 0x4E, 0xD4, 0xAC, 0xE5, 0xF3, 0x73, 0xA7, 0x57),
      Row(k, 0xAF, 0x58, 0xA8, 0x50, 0xF4, 0xEA, 0xD6, 0x74, 0x4F, 0xAE, 0xE9, 0xD5, 0xE7, 0xE6, 0xAD, 0xE8),
      Row(k, 0x2C, 0xD7, 0x75, 0x7A, 0xEB, 0x16, 0x0B, 0xF5, 0x59, 0xCB, 0x5F, 0xB0, 0x9C, 0xA9, 0x51, 0xA0),
      Row(k, 0x7F, 0x0C, 0xF6, 0x6F, 0x17, 0xC4, 0x49, 0xEC, 0xD8, 0x43, 0x1F, 0x2D, 0xA4, 0x76, 0x7B, 0xB7),
      Row(k, 0xCC, 0xBB, 0x3E, 0x5A, 0xFB, 0x60, 0xB1, 0x86, 0x3B, 0x52, 0xA1, 0x6C, 0xAA, 0x55, 0x29, 0x9D),
      Row(k, 0x97, 0xB2, 0x87, 0x90, 0x61, 0xBE, 0xDC, 0xFC, 0xBC, 0x95, 0xCF, 0xCD, 0x37, 0x3F, 0x5B, 0xD1),
      Row(k, 0x53, 0x39, 0x84, 0x3C, 0x41, 0xA2, 0x6D, 0x47, 0x14, 0x2A, 0x9E, 0x5D, 0x56, 0xF2, 0xD3, 0xAB),
      Row(k, 0x44, 0x11, 0x92, 0xD9, 0x23, 0x20, 0x2E, 0x89, 0xB4, 0x7C, 0xB8, 0x26, 0x77, 0x99, 0xE3, 0xA5),
      Row(k, 0x67, 0x4A, 0xED, 0xDE, 0xC5, 0x31, 0xFE, 0x18, 0x0D, 0x63, 0x8C, 0x80, 0xC0, 0xF7, 0x70, 0x07))
  }

  lemma {:induction false} NextPower(i: bv8)
    requires i < 255
    ensures Power(i + 1) == Xor(Power(i), Xtime(Power(i)))
  {}

  lemma {:induction false} PowerLog(x: bv8)
    requires x != 0
    ensures Power(Log(x)) == x && Log(x) != 0
  {}

  lemma {:induction false} LogPower(i: bv8)
    requires i != 0
    ensures Log(Power(i)) == i
  {}

  lemma {:induction false} InverseOfOne()
    ensures InvAffine(SBox(1)) == 1
  {}

  /** The power that the generator takes for the inverse. */
  lemma {:induction false} InverseByLog(x: bv8)
    requires x != 0
    ensures Power(255 - Log(x)) == InvAffine(SBox(x))
  {
    hide Power, Log, InvAffine, SBox;
    if x < 0x80 { LowInverse(x); } else { HighInverse(x); }
  }

  lemma {:induction false} LowInverse(x: bv8)
    requires 0 < x < 0x80
    ensures Power(255 - Log(x)) == InvAffine(SBox(x))
  {}

  lemma {:induction false} HighInverse(x: bv8)
    requires x >= 0x80
    ensures Power(255 - Log(x)) == InvAffine(SBox(x))
  {}

  /** What the generating loop computes. */
  function Pow(n: nat): bv8 { if n == 0 then 1 else Times3(Pow(n - 1)) }

  lemma {:induction false} ByteOf(n: nat)
    requires n < 256
    ensures (n as bv8) as nat == n
  {
    var b := ByteNamed(n);
    ThereAndBack(b);
  }

  lemma {:induction false} ByteNamed(n: nat) returns (b: bv8)
    requires n < 256
    ensures b as nat == n
  {
    b := 0;
    if n > 0 {
      b := ByteNamed(n - 1);
      ByteIncrement(b);
      b := b + 1;
    }
  }

  lemma {:induction false} ByteIncrement(x: bv8)
    requires x as nat < 255
    ensures (x + 1) as nat == x as nat + 1
  {}

  lemma {:induction false} ThereAndBack(b: bv8)
    ensures (b as nat) as bv8 == b
  {}

  lemma {:induction false} ByteBefore(x: bv8)
    requires x > 0
    ensures (x - 1) as nat == x as nat - 1
  {}

  lemma {:induction false} Complement(x: bv8)
    ensures (255 - x) as nat == 255 - x as nat
  {}

  lemma {:induction false} PowPower(i: bv8)
    ensures Pow(i as nat) == Power(i)
    decreases i as nat
  {
    hide Power, Times3;
    if i == 0 {
      FirstPower();
    } else {
      ByteBefore(i);
      PowPower(i - 1);
      PowerStep(i - 1);
    }
  }

  lemma {:induction false} PowerStep(i: bv8)
    requires i < 255
    ensures Power(i + 1) == Times3(Power(i))
  {
    hide Power, Xtime;
    NextPower(i);
    XorLaws(Power(i), Xtime(Power(i)), 0);
  }

  lemma {:induction false} FirstPower()
    ensures Power(0) == 1 && Power(255) == 1
  {}

  /** The generator has order 255. */
  lemma {:induction false} PowPeriod(n: nat)
    ensures Pow(n + 255) == Pow(n)
  {
    hide Times3;
    if n == 0 { FullCircle(); } else { PowPeriod(n - 1); }
  }

  lemma {:induction false} FullCircle()
    ensures Pow(255) == Pow(0)
  {
    hide Power;
    PowPower(255);
    PowPower(0);
    FirstPower();
  }

  lemma {:induction false} PowMod(n: nat)
    ensures Pow(n % 255) == Pow(n)
  {
    hide Pow;
    if n >= 255 {
      PowMod(n - 255);
      PowPeriod(n - 255);
      assert n % 255 == (n - 255) % 255;
    }
  }

  /** Every byte but 0 is a power. */
  lemma {:induction false} LogIndex(x: bv8) returns (k: nat)
    requires x != 0
    ensures k < 256 && Pow(k) == x
  {
    hide Power, Log, Pow;
    k := Log(x) as nat;
    PowerLog(x);
    PowPower(Log(x));
  }

  /** The inverse of a byte, by any of its logarithms. */
  lemma {:induction false} InverseIndex(x: bv8, l: nat)
    requires x != 0 && l < 256 && Pow(l) == x
    ensures Pow(255 - l) == InvAffine(SBox(x))
  {
    hide Power, Log, Pow, InvAffine, SBox;
    var b := l as bv8;
    ByteOf(l);
    PowPower(b);
    FirstPower();
    Complement(b);
    PowPower(255 - b);
    if b == 0 {
      InverseOfOne();
    } else {
      LogPower(b);
      InverseByLog(x);
    }
  }

  /** Multiplying by one of the four numbers adds its logarithm. */
  lemma {:induction false} TimesPow(l: nat)
    ensures Times14(Pow(l)) == Pow(l + 223) && Times9(Pow(l)) == Pow(l + 199)
    ensures Times13(Pow(l)) == Pow(l + 238) && Times11(Pow(l)) == Pow(l + 104)
  {
    hide Times3, Times9, Times11, Times13, Times14;
    if l == 0 {
      FourPowers();
    } else {
      TimesPow(l - 1);
      Commute(Pow(l - 1));
    }
  }

  lemma {:induction false} FourPowers()
    ensures Times14(1) == Pow(223) == 0x0E && Times9(1) == Pow(199) == 0x09
    ensures Times13(1) == Pow(238) == 0x0D && Times11(1) == Pow(104) == 0x0B
  {
    hide Pow;
    PowPower(223);
    PowPower(199);
    PowPower(238);
    PowPower(104);
  }

  lemma {:induction false} Commute(x: bv8)
    ensures Times14(Times3(x)) == Times3(Times14(x)) && Times9(Times3(x)) == Times3(Times9(x))
    ensures Times13(Times3(x)) == Times3(Times13(x)) && Times11(Times3(x)) == Times3(Times11(x))
  {}

  lemma {:induction false} PowAdd(a: nat, b: nat, l: nat)
    requires Pow(a) == Pow(b)
    ensures Pow(a + l) == Pow(b + l)
  {
    hide Times3;
    if l > 0 { PowAdd(a, b, l - 1); }
  }

  // ----- the generating code

  /** Every power that has been seen has a logarithm. */
  ghost predicate LogsDone(log: seq<nat>, i: nat) {
    |log| == 256 && forall k :: 0 <= k < i ==> log[Pow(k) as int] < i && Pow(log[Pow(k) as int]) == Pow(k)
  }

  ghost predicate PowsDone(pow: seq<bv8>, i: nat) { |pow| == 256 && i <= 256 && forall k :: 0 <= k < i ==> pow[k] == Pow(k) }

  lemma {:induction false} LogKept(log: seq<nat>, i: nat, k: nat)
    requires LogsDone(log, i) && k <= i && Pow(k) as int != Pow(i) as int
    ensures var l := log[Pow(i) as int := i][Pow(k) as int]; l < i && Pow(l) == Pow(k)
  {
    hide Pow;
    assert k < i;
  }

  lemma {:induction false} LogStored(log: seq<nat>, i: nat)
    requires LogsDone(log, i)
    ensures LogsDone(log[Pow(i) as int := i], i + 1)
  {
    hide Pow;
    var t := log[Pow(i) as int := i];
    forall k | 0 <= k < i + 1 ensures t[Pow(k) as int] < i + 1 && Pow(t[Pow(k) as int]) == Pow(k) {
      if Pow(k) as int == Pow(i) as int { SameByte(Pow(k), Pow(i)); } else { LogKept(log, i, k); }
    }
  }

  lemma {:induction false} SameByte(x: bv8, y: bv8)
    requires x as int == y as int
    ensures x == y
  {}

  method PowersAndLogs(pow: array<bv8>, log: array<nat>)
    requires pow.Length == 256 && log.Length == 256 && pow as object != log as object
    modifies pow, log
    ensures PowsDone(pow[..], 256) && LogsDone(log[..], 256)
  {
    hide Pow, Xtime, Xor, LogsDone, PowsDone;
    var x: bv8 := 1;
    NothingDone(pow[..], log[..]);
    for i := 0 to 256
      invariant x == Pow(i) && PowsDone(pow[..], i) && LogsDone(log[..], i)
    {
      ghost var p, l := pow[..], log[..];
      pow[i] := x;
      log[x as int] := i;
      assert pow[..] == p[i := x] && log[..] == l[x as int := i];
      PowStored(p, i);
      LogStored(l, i);
      NextPow(i);
      x := Xor(x, Xtime(x));
    }
  }

  lemma {:induction false} NothingDone(pow: seq<bv8>, log: seq<nat>)
    requires |pow| == 256 && |log| == 256
    ensures Pow(0) == 1 && PowsDone(pow, 0) && LogsDone(log, 0)
  {}

  lemma {:induction false} PowStored(pow: seq<bv8>, i: nat)
    requires PowsDone(pow, i) && i < 256
    ensures PowsDone(pow[i := Pow(i)], i + 1)
  {
    hide Pow;
  }

  lemma {:induction false} NextPow(i: nat)
    ensures Pow(i + 1) == Xor(Pow(i), Xtime(Pow(i)))
  {
    hide Xor, Xtime;
    XorLaws(Pow(i), Xtime(Pow(i)), 0);
  }

  method RoundConstants(rcon: array<bv32>)
    requires rcon.Length == 10
    modifies rcon
    ensures forall i :: 0 <= i < 10 ==> rcon[i] == Rcon(i) as bv32
  {
    hide Xtime;
    var x: bv8 := 1;
    for i := 0 to 10
      invariant x == Rcon(i) && forall k :: 0 <= k < i ==> rcon[k] == Rcon(k) as bv32
    {
      rcon[i] := x as bv32;
      x := Xtime(x);
    }
  }

  /** Four rotations, each added to the byte. */
  function Spread(x: bv8): bv8 {
    var y1 := (x << 1) | (x >> 7);
    var y2 := (y1 << 1) | (y1 >> 7);
    var y3 := (y2 << 1) | (y2 >> 7);
    var y4 := (y3 << 1) | (y3 >> 7);
    x ^ y1 ^ y2 ^ y3 ^ (y4 ^ 0x63)
  }

  lemma {:induction false} SpreadIsAffine(x: bv8)
    ensures Spread(x) == Affine(x)
  {}

  lemma {:induction false} InverseFound(pow: seq<bv8>, log: seq<nat>, x: bv8)
    requires PowsDone(pow, 256) && LogsDone(log, 256) && x != 0
    ensures log[x as int] < 256 && Pow(log[x as int]) == x
    ensures Spread(pow[255 - log[x as int]]) == SBox(x)
  {
    hide Pow, SBox, Spread, Affine, InvAffine;
    var k := LogIndex(x);
    var l := log[x as int];
    InverseIndex(x, l);
    SpreadIsAffine(InvAffine(SBox(x)));
    AffineInverse(SBox(x));
  }

  /** The entries of both substitution boxes for the first i bytes. */
  ghost predicate BoxesDone(fsb: seq<bv8>, rsb: seq<bv8>, i: nat) {
    |fsb| == 256 && |rsb| == 256
    && forall b: bv8 :: b as nat < i ==> fsb[b as int] == SBox(b) && rsb[SBox(b) as int] == b
  }

  lemma {:induction false} BoxEntry(fsb: seq<bv8>, rsb: seq<bv8>, b: bv8, c: bv8)
    requires BoxesDone(fsb, rsb, b as nat) && c as nat <= b as nat
    ensures fsb[b as int := SBox(b)][c as int] == SBox(c) && rsb[SBox(b) as int := b][SBox(c) as int] == c
  {
    hide SBox, InvSBox;
    if c as nat == b as nat {
      SameByte(c, b);
    } else {
      DifferentBoxes(b, c);
    }
  }

  lemma {:induction false} DifferentBoxes(b: bv8, c: bv8)
    requires c as nat != b as nat
    ensures SBox(c) as int != SBox(b) as int
  {
    hide SBox, InvSBox;
    SBoxInverse(b);
    SBoxInverse(c);
    if SBox(c) as int == SBox(b) as int { SameByte(SBox(c), SBox(b)); }
  }

  lemma {:induction false} BoxStored(fsb: seq<bv8>, rsb: seq<bv8>, b: bv8)
    requires BoxesDone(fsb, rsb, b as nat)
    ensures BoxesDone(fsb[b as int := SBox(b)], rsb[SBox(b) as int := b], b as nat + 1)
  {
    hide SBox, InvSBox;
    var f, r := fsb[b as int := SBox(b)], rsb[SBox(b) as int := b];
    forall c: bv8 | c as nat < b as nat + 1 ensures f[c as int] == SBox(c) && r[SBox(c) as int] == c {
      BoxEntry(fsb, rsb, b, c);
    }
  }

  method SubstitutionBoxes(pow: array<bv8>, log: array<nat>, fsb: array<bv8>, rsb: array<bv8>)
    requires pow.Length == 256 && log.Length == 256 && fsb.Length == 256 && rsb.Length == 256
    requires PowsDone(pow[..], 256) && LogsDone(log[..], 256)
    requires fsb != rsb && pow != fsb && pow != rsb && log as object != fsb as object && log as object != rsb as object
    modifies fsb, rsb
    ensures forall b: bv8 :: fsb[b as int] == SBox(b) && rsb[b as int] == InvSBox(b)
  {
    hide SBox, InvSBox, Pow, PowsDone, LogsDone, Spread, BoxesDone;
    ghost var f, r := fsb[..], rsb[..];
    NoBoxes(f, r);
    fsb[0] := 0x63;
    rsb[0x63] := 0;
    assert fsb[..] == f[0 := 0x63] && rsb[..] == r[0x63 := 0];
    BoxStored(f, r, 0);
    for i := 1 to 256
      invariant BoxesDone(fsb[..], rsb[..], i)
    {
      f, r := fsb[..], rsb[..];
      var b := i as bv8;
      ByteOf(i);
      InverseFound(pow[..], log[..], b);
      var x := Spread(pow[255 - log[i]]);
      fsb[i] := x;
      rsb[x as int] := b;
      assert fsb[..] == f[i := x] && rsb[..] == r[x as int := b];
      BoxStored(f, r, b);
    }
    AllBoxes(fsb[..], rsb[..]);
  }

  lemma {:induction false} NoBoxes(f: seq<bv8>, r: seq<bv8>)
    requires |f| == 256 && |r| == 256
    ensures BoxesDone(f, r, 0) && SBox(0) == 0x63
  {}

  lemma {:induction false} AllBoxes(f: seq<bv8>, r: seq<bv8>)
    requires BoxesDone(f, r, 256)
    ensures forall b: bv8 :: f[b as int] == SBox(b) && r[b as int] == InvSBox(b)
  {
    hide SBox, InvSBox;
    forall b: bv8 ensures f[b as int] == SBox(b) && r[b as int] == InvSBox(b) {
      InvSBoxInverse(b);
      assert InvSBox(b) as nat < 256;
    }
  }

  lemma {:induction false} MulIndex(pow: seq<bv8>, log: seq<nat>, c: bv8, y: bv8)
    requires PowsDone(pow, 256) && LogsDone(log, 256) && y != 0
    requires c == 0x0E || c == 0x09 || c == 0x0D || c == 0x0B
    ensures log[c as int] < 256 && log[y as int] < 256
    ensures pow[(log[c as int] + log[y as int]) % 255] == Mul(y, c)
  {
    hide Pow, Mul, Times9, Times11, Times13, Times14, SBox, Spread;
    InverseFound(pow, log, c);
    InverseFound(pow, log, y);
    var l, n := log[y as int], if c == 0x0E then 223 else if c == 0x09 then 199 else if c == 0x0D then 238 else 104;
    FourPowers();
    PowAdd(log[c as int], n, l);
    PowMod(log[c as int] + l);
    TimesPow(l);
    TimesIsMul(y);
  }

  lemma {:induction false} MulZero(c: bv8)
    ensures Mul(0, c) == 0
  {}

  /** Multiplication by way of the logarithms, for the four numbers of the reverse tables. */
  method LogMul(pow: array<bv8>, log: array<nat>, c: bv8, y: bv8) returns (r: bv8)
    requires pow.Length == 256 && log.Length == 256 && PowsDone(pow[..], 256) && LogsDone(log[..], 256)
    requires c == 0x0E || c == 0x09 || c == 0x0D || c == 0x0B
    ensures r == Mul(y, c)
  {
    hide PowsDone, LogsDone, Mul;
    MulZero(c);
    if y == 0 { return 0; }
    MulIndex(pow[..], log[..], c, y);
    r := pow[(log[c as int] + log[y as int]) % 255];
  }

  /** An entry of the first reverse table. */
  method ReverseEntry(pow: array<bv8>, log: array<nat>, rsb: array<bv8>, i: bv8) returns (w: bv32)
    requires pow.Length == 256 && log.Length == 256 && PowsDone(pow[..], 256) && LogsDone(log[..], 256)
    requires rsb.Length == 256 && rsb[i as int] == InvSBox(i)
    ensures w == RT0(i)
  {
    hide PowsDone, LogsDone, Mul, InvSBox, Entry;
    var x := rsb[i as int];
    var p := LogMul(pow, log, 0x0E, x);
    var q := LogMul(pow, log, 0x09, x);
    var r := LogMul(pow, log, 0x0D, x);
    var s := LogMul(pow, log, 0x0B, x);
    w := Entry(p, q, r, s);
  }
}
