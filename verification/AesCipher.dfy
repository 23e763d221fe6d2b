/** The AES block cipher on 32-bit words with combined round tables, against the steps of FIPS 197. */
module AesCipher {
  import opened AesTables

  // ----- the steps of the standard

  /** A column of the state, from its first row to its last. */
  datatype Column = Column(a: bv8, b: bv8, c: bv8, d: bv8)

  datatype State = State(c0: Column, c1: Column, c2: Column, c3: Column)

  function SubColumn(x: Column): Column { Column(SBox(x.a), SBox(x.b), SBox(x.c), SBox(x.d)) }

  function InvSubColumn(x: Column): Column { Column(InvSBox(x.a), InvSBox(x.b), InvSBox(x.c), InvSBox(x.d)) }

  function SubBytes(s: State): State {
    State(SubColumn(s.c0), SubColumn(s.c1), SubColumn(s.c2), SubColumn(s.c3))
  }

  function InvSubBytes(s: State): State {
    State(InvSubColumn(s.c0), InvSubColumn(s.c1), InvSubColumn(s.c2), InvSubColumn(s.c3))
  }

  function ShiftRows(s: State): State {
    State(Column(s.c0.a, s.c1.b, s.c2.c, s.c3.d), Column(s.c1.a, s.c2.b, s.c3.c, s.c0.d),
          Column(s.c2.a, s.c3.b, s.c0.c, s.c1.d), Column(s.c3.a, s.c0.b, s.c1.c, s.c2.d))
  }

  function InvShiftRows(s: State): State {
    State(Column(s.c0.a, s.c3.b, s.c2.c, s.c1.d), Column(s.c1.a, s.c0.b, s.c3.c, s.c2.d),
          Column(s.c2.a, s.c1.b, s.c0.c, s.c3.d), Column(s.c3.a, s.c2.b, s.c1.c, s.c0.d))
  }

  function Times3(x: bv8): bv8 { Xor(Xtime(x), x) }
  function Times9(x: bv8): bv8 { Xor(Xtime(Xtime(Xtime(x))), x) }
  function Times11(x: bv8): bv8 { Xor(Xtime(Xor(Xtime(Xtime(x)), x)), x) }
  function Times13(x: bv8): bv8 { Xor(Xtime(Xtime(Times3(x))), x) }
  function Times14(x: bv8): bv8 { Xtime(Xor(Xtime(Times3(x)), x)) }

  lemma {:induction false} TimesIsMul(x: bv8)
    ensures Xtime(x) == Mul(x, 2) && Times3(x) == Mul(x, 3) && Times9(x) == Mul(x, 9)
    ensures Times11(x) == Mul(x, 11) && Times13(x) == Mul(x, 13) && Times14(x) == Mul(x, 14)
  {}

  /** The first byte of a mixed column; the others are the same for the rotated column. */
  function MixRow(a: bv8, b: bv8, c: bv8, d: bv8): bv8 { Xor4(Xtime(a), Times3(b), c, d) }

  function InvMixRow(a: bv8, b: bv8, c: bv8, d: bv8): bv8 { Xor4(Times14(a), Times11(b), Times13(c), Times9(d)) }

  function MixColumn(x: Column): Column {
    Column(MixRow(x.a, x.b, x.c, x.d), MixRow(x.b, x.c, x.d, x.a), MixRow(x.c, x.d, x.a, x.b), MixRow(x.d, x.a, x.b, x.c))
  }

  function InvMixColumn(x: Column): Column {
    Column(InvMixRow(x.a, x.b, x.c, x.d), InvMixRow(x.b, x.c, x.d, x.a),
           InvMixRow(x.c, x.d, x.a, x.b), InvMixRow(x.d, x.a, x.b, x.c))
  }

  function MixColumns(s: State): State {
    State(MixColumn(s.c0), MixColumn(s.c1), MixColumn(s.c2), MixColumn(s.c3))
  }

  function InvMixColumns(s: State): State {
    State(InvMixColumn(s.c0), InvMixColumn(s.c1), InvMixColumn(s.c2), InvMixColumn(s.c3))
  }

  function XorColumn(x: Column, y: Column): Column { Column(Xor(x.a, y.a), Xor(x.b, y.b), Xor(x.c, y.c), Xor(x.d, y.d)) }

  function AddRoundKey(s: State, k: State): State {
    State(XorColumn(s.c0, k.c0), XorColumn(s.c1, k.c1), XorColumn(s.c2, k.c2), XorColumn(s.c3, k.c3))
  }

  // ----- their inverses

  lemma {:induction false} SubColumnInverse(x: Column)
    ensures InvSubColumn(SubColumn(x)) == x
  {
    hide SBox, InvSBox;
    SBoxInverse(x.a);
    SBoxInverse(x.b);
    SBoxInverse(x.c);
    SBoxInverse(x.d);
  }

  lemma {:induction false} SubShiftInverse(s: State)
    ensures InvSubBytes(InvShiftRows(ShiftRows(SubBytes(s)))) == s
  {
    hide SubColumn, InvSubColumn;
    SubColumnInverse(s.c0);
    SubColumnInverse(s.c1);
    SubColumnInverse(s.c2);
    SubColumnInverse(s.c3);
    assert InvShiftRows(ShiftRows(SubBytes(s))) == SubBytes(s);
  }

  lemma {:induction false} Times3Xor(x: bv8, y: bv8)
    ensures Times3(Xor(x, y)) == Xor(Times3(x), Times3(y))
  {
    hide Xtime, Xor;
    XtimeXor(x, y);
    Regroup(Xtime(x), Xtime(y), x, y);
  }

  lemma {:induction false} Times9Xor(x: bv8, y: bv8)
    ensures Times9(Xor(x, y)) == Xor(Times9(x), Times9(y))
  {
    hide Xtime, Xor;
    XtimeXor(x, y);
    XtimeXor(Xtime(x), Xtime(y));
    XtimeXor(Xtime(Xtime(x)), Xtime(Xtime(y)));
    Regroup(Xtime(Xtime(Xtime(x))), Xtime(Xtime(Xtime(y))), x, y);
  }

  lemma {:induction false} Times11Xor(x: bv8, y: bv8)
    ensures Times11(Xor(x, y)) == Xor(Times11(x), Times11(y))
  {
    hide Xtime, Xor;
    XtimeXor(x, y);
    XtimeXor(Xtime(x), Xtime(y));
    Regroup(Xtime(Xtime(x)), Xtime(Xtime(y)), x, y);
    var u, v := Xor(Xtime(Xtime(x)), x), Xor(Xtime(Xtime(y)), y);
    XtimeXor(u, v);
    Regroup(Xtime(u), Xtime(v), x, y);
  }

  lemma {:induction false} Times13Xor(x: bv8, y: bv8)
    ensures Times13(Xor(x, y)) == Xor(Times13(x), Times13(y))
  {
    hide Xtime, Xor, Times3;
    Times3Xor(x, y);
    XtimeXor(Times3(x), Times3(y));
    XtimeXor(Xtime(Times3(x)), Xtime(Times3(y)));
    Regroup(Xtime(Xtime(Times3(x))), Xtime(Xtime(Times3(y))), x, y);
  }

  lemma {:induction false} Times14Xor(x: bv8, y: bv8)
    ensures Times14(Xor(x, y)) == Xor(Times14(x), Times14(y))
  {
    hide Xtime, Xor, Times3;
    Times3Xor(x, y);
    XtimeXor(Times3(x), Times3(y));
    Regroup(Xtime(Times3(x)), Xtime(Times3(y)), x, y);
    XtimeXor(Xor(Xtime(Times3(x)), x), Xor(Xtime(Times3(y)), y));
  }

  lemma {:induction false} RegroupFour(a: bv8, b: bv8, c: bv8, d: bv8, p: bv8, q: bv8, r: bv8, s: bv8)
    ensures Xor4(Xor(a, p), Xor(b, q), Xor(c, r), Xor(d, s)) == Xor(Xor4(a, b, c, d), Xor4(p, q, r, s))
  {
    hide Xor;
    Regroup(a, p, b, q);
    Regroup(c, r, d, s);
    Regroup(Xor(a, b), Xor(p, q), Xor(c, d), Xor(r, s));
  }

  lemma {:induction false} InvMixRowXor(a: bv8, b: bv8, c: bv8, d: bv8, p: bv8, q: bv8, r: bv8, s: bv8)
    ensures InvMixRow(Xor(a, p), Xor(b, q), Xor(c, r), Xor(d, s)) == Xor(InvMixRow(a, b, c, d), InvMixRow(p, q, r, s))
  {
    hide Times9, Times11, Times13, Times14, Xor, Xor4;
    Times14Xor(a, p);
    Times11Xor(b, q);
    Times13Xor(c, r);
    Times9Xor(d, s);
    RegroupFour(Times14(a), Times11(b), Times13(c), Times9(d), Times14(p), Times11(q), Times13(r), Times9(s));
  }

  lemma {:induction false} InvMixXor(x: Column, y: Column)
    ensures InvMixColumn(XorColumn(x, y)) == XorColumn(InvMixColumn(x), InvMixColumn(y))
  {
    hide InvMixRow, Xor;
    InvMixRowXor(x.a, x.b, x.c, x.d, y.a, y.b, y.c, y.d);
    InvMixRowXor(x.b, x.c, x.d, x.a, y.b, y.c, y.d, y.a);
    InvMixRowXor(x.c, x.d, x.a, x.b, y.c, y.d, y.a, y.b);
    InvMixRowXor(x.d, x.a, x.b, x.c, y.d, y.a, y.b, y.c);
  }

  /** One byte of a column, mixed and unmixed. */
  lemma {:induction false} MixOne(a: bv8)
    ensures InvMixRow(Xtime(a), a, a, Times3(a)) == a
    ensures InvMixRow(a, a, Times3(a), Xtime(a)) == 0
    ensures InvMixRow(a, Times3(a), Xtime(a), a) == 0
    ensures InvMixRow(Times3(a), Xtime(a), a, a) == 0
  {
    hide InvMixRow;
    MixOneSame(a);
    MixOneOther(a);
  }

  lemma {:induction false} MixOneSame(a: bv8)
    ensures InvMixRow(Xtime(a), a, a, Times3(a)) == a && InvMixRow(a, a, Times3(a), Xtime(a)) == 0
  {}

  lemma {:induction false} MixOneOther(a: bv8)
    ensures InvMixRow(a, Times3(a), Xtime(a), a) == 0 && InvMixRow(Times3(a), Xtime(a), a, a) == 0
  {}

  /** A mixed row is the sum of what the four bytes contribute. */
  lemma {:induction false} MixInverseRow(a: bv8, b: bv8, c: bv8, d: bv8)
    ensures InvMixRow(MixRow(a, b, c, d), MixRow(b, c, d, a), MixRow(c, d, a, b), MixRow(d, a, b, c)) == a
  {
    hide Xtime, Times3, InvMixRow, Xor, Xor4;
    MixOne(a);
    MixOne(b);
    MixOne(c);
    MixOne(d);
    XorRotate(Xtime(b), Times3(c), d, a);
    XorRotate(Xtime(c), Times3(d), a, b);
    XorRotate(b, Xtime(c), Times3(d), a);
    XorRotate(Times3(a), b, c, Xtime(d));
    FourParts(Xtime(a), a, a, Times3(a), Times3(b), Xtime(b), b, b,
              c, Times3(c), Xtime(c), c, d, d, Times3(d), Xtime(d));
    ZeroSum(a);
  }

  lemma {:induction false} ZeroSum(a: bv8)
    ensures Xor4(a, 0, 0, 0) == a
  {}

  lemma {:induction false} FourParts(a0: bv8, a1: bv8, a2: bv8, a3: bv8, b0: bv8, b1: bv8, b2: bv8, b3: bv8,
                                     c0: bv8, c1: bv8, c2: bv8, c3: bv8, d0: bv8, d1: bv8, d2: bv8, d3: bv8)
    ensures InvMixRow(Xor4(a0, b0, c0, d0), Xor4(a1, b1, c1, d1), Xor4(a2, b2, c2, d2), Xor4(a3, b3, c3, d3))
            == Xor4(InvMixRow(a0, a1, a2, a3), InvMixRow(b0, b1, b2, b3),
                    InvMixRow(c0, c1, c2, c3), InvMixRow(d0, d1, d2, d3))
  {
    hide InvMixRow, Xor;
    InvMixRowXor(Xor(a0, b0), Xor(a1, b1), Xor(a2, b2), Xor(a3, b3), Xor(c0, d0), Xor(c1, d1), Xor(c2, d2), Xor(c3, d3));
    InvMixRowXor(a0, a1, a2, a3, b0, b1, b2, b3);
    InvMixRowXor(c0, c1, c2, c3, d0, d1, d2, d3);
  }

  lemma {:induction false} MixInverse(x: Column)
    ensures InvMixColumn(MixColumn(x)) == x
  {
    hide MixRow, InvMixRow;
    MixInverseRow(x.a, x.b, x.c, x.d);
    MixInverseRow(x.b, x.c, x.d, x.a);
    MixInverseRow(x.c, x.d, x.a, x.b);
    MixInverseRow(x.d, x.a, x.b, x.c);
  }

  // ----- words and tables

  /** A column as a little-endian word. */
  function Word(x: Column): bv32 {
    (x.a as bv32) | ((x.b as bv32) << 8) | ((x.c as bv32) << 16) | ((x.d as bv32) << 24)
  }

  function Byte0(w: bv32): bv8 { (w & 0xFF) as bv8 }
  function Byte1(w: bv32): bv8 { ((w >> 8) & 0xFF) as bv8 }
  function Byte2(w: bv32): bv8 { ((w >> 16) & 0xFF) as bv8 }
  function Byte3(w: bv32): bv8 { ((w >> 24) & 0xFF) as bv8 }

  function ColumnOf(w: bv32): Column { Column(Byte0(w), Byte1(w), Byte2(w), Byte3(w)) }

  lemma {:induction false} WordBytes(x: Column)
    ensures Byte0(Word(x)) == x.a && Byte1(Word(x)) == x.b && Byte2(Word(x)) == x.c && Byte3(Word(x)) == x.d
    ensures ColumnOf(Word(x)) == x
  {}

  lemma {:induction false} WordOfColumn(w: bv32)
    ensures Word(ColumnOf(w)) == w
  {}

  function XorWord(x: bv32, y: bv32): bv32 { x ^ y }

  lemma {:induction false} WordXor(x: Column, y: Column)
    ensures XorWord(Word(x), Word(y)) == Word(XorColumn(x, y))
  {}

  function Rotl8(w: bv32): bv32 { (w << 8) | (w >> 24) }

  function Entry(a: bv8, b: bv8, c: bv8, d: bv8): bv32 {
    (a as bv32) ^ ((b as bv32) << 8) ^ ((c as bv32) << 16) ^ ((d as bv32) << 24)
  }

  function FT0(i: bv8): bv32 {
    var x := SBox(i);
    var y := Xtime(x);
    var z := y ^ x;
    Entry(y, x, x, z)
  }
  function FT1(i: bv8): bv32 { Rotl8(FT0(i)) }
  function FT2(i: bv8): bv32 { Rotl8(FT1(i)) }
  function FT3(i: bv8): bv32 { Rotl8(FT2(i)) }

  function RT0(i: bv8): bv32 {
    var x := InvSBox(i);
    Entry(Mul(x, 0x0E), Mul(x, 0x09), Mul(x, 0x0D), Mul(x, 0x0B))
  }
  function RT1(i: bv8): bv32 { Rotl8(RT0(i)) }
  function RT2(i: bv8): bv32 { Rotl8(RT1(i)) }
  function RT3(i: bv8): bv32 { Rotl8(RT2(i)) }

  lemma {:induction false} WordSum(a: bv8, b: bv8, c: bv8, d: bv8)
    ensures Entry(a, b, c, d) == Word(Column(a, b, c, d))
  {
    hide Word, Byte0, Byte1, Byte2, Byte3, Entry;
    var w := Entry(a, b, c, d);
    SumBytes(a, b, c, d, w);
    WordOfColumn(w);
  }

  lemma {:induction false} SumBytes(a: bv8, b: bv8, c: bv8, d: bv8, w: bv32)
    requires w == Entry(a, b, c, d)
    ensures Byte0(w) == a && Byte1(w) == b && Byte2(w) == c && Byte3(w) == d
  {}

  lemma {:induction false} WordRotated(a: bv8, b: bv8, c: bv8, d: bv8)
    ensures Rotl8(Word(Column(a, b, c, d))) == Word(Column(d, a, b, c))
  {
    var w := Rotl8(Word(Column(a, b, c, d)));
    hide Word, Byte0, Byte1, Byte2, Byte3, Rotl8;
    RotatedBytes(a, b, c, d, w);
    WordOfColumn(w);
  }

  lemma {:induction false} RotatedBytes(a: bv8, b: bv8, c: bv8, d: bv8, w: bv32)
    requires w == Rotl8(Word(Column(a, b, c, d)))
    ensures Byte0(w) == d && Byte1(w) == a && Byte2(w) == b && Byte3(w) == c
  {}

  lemma {:induction false} WordParts(a: bv8, b: bv8, c: bv8, d: bv8)
    ensures Entry(a, b, c, d) == Word(Column(a, b, c, d))
    ensures Rotl8(Word(Column(a, b, c, d))) == Word(Column(d, a, b, c))
  {
    hide Word, Rotl8, Entry;
    WordSum(a, b, c, d);
    WordRotated(a, b, c, d);
  }

  lemma {:induction false} ForwardTables(i: bv8)
    ensures var s := SBox(i);
            && FT0(i) == Word(Column(Xtime(s), s, s, Times3(s))) && FT1(i) == Word(Column(Times3(s), Xtime(s), s, s))
            && FT2(i) == Word(Column(s, Times3(s), Xtime(s), s)) && FT3(i) == Word(Column(s, s, Times3(s), Xtime(s)))
  {
    hide SBox, Xtime, Word, Rotl8, Entry;
    var s := SBox(i);
    var x, t := Xtime(s), Times3(s);
    WordParts(x, s, s, t);
    WordParts(t, x, s, s);
    WordParts(s, t, x, s);
  }

  lemma {:induction false} ReverseTables(i: bv8)
    ensures var s := InvSBox(i);
            && RT0(i) == Word(Column(Times14(s), Times9(s), Times13(s), Times11(s)))
            && RT1(i) == Word(Column(Times11(s), Times14(s), Times9(s), Times13(s)))
            && RT2(i) == Word(Column(Times13(s), Times11(s), Times14(s), Times9(s)))
            && RT3(i) == Word(Column(Times9(s), Times13(s), Times11(s), Times14(s)))
  {
    hide InvSBox, Mul, Word, Rotl8, Entry, Times9, Times11, Times13, Times14, Xtime;
    var s := InvSBox(i);
    TimesIsMul(s);
    var n, e, t, f := Times9(s), Times11(s), Times13(s), Times14(s);
    WordParts(f, n, t, e);
    WordParts(e, f, n, t);
    WordParts(t, e, f, n);
  }

  // ----- rounds

  function Xor4Column(p: Column, q: Column, r: Column, s: Column): Column {
    Column(Xor4(p.a, q.a, r.a, s.a), Xor4(p.b, q.b, r.b, s.b), Xor4(p.c, q.c, r.c, s.c), Xor4(p.d, q.d, r.d, s.d))
  }

  function XorWords(k: bv32, p: bv32, q: bv32, r: bv32, s: bv32): bv32 {
    XorWord(XorWord(XorWord(XorWord(k, p), q), r), s)
  }

  lemma {:induction false} KeyFirst(k: bv8, p: bv8, q: bv8, r: bv8, s: bv8)
    ensures Xor(Xor(Xor(Xor(k, p), q), r), s) == Xor(Xor4(p, q, r, s), k)
  {
    hide Xor;
    XorLaws(k, p, q);
    XorLaws(Xor(k, Xor(p, q)), r, s);
    XorLaws(k, Xor(p, q), Xor(r, s));
    XorLaws(k, Xor4(p, q, r, s), 0);
  }

  lemma {:induction false} WordChain(k: Column, p: Column, q: Column, r: Column, s: Column)
    ensures XorWords(Word(k), Word(p), Word(q), Word(r), Word(s)) == Word(XorColumn(Xor4Column(p, q, r, s), k))
  {
    hide Word, Xor, Xor4, XorWord;
    WordXor(k, p);
    WordXor(XorColumn(k, p), q);
    WordXor(XorColumn(XorColumn(k, p), q), r);
    WordXor(XorColumn(XorColumn(XorColumn(k, p), q), r), s);
    KeyFirst(k.a, p.a, q.a, r.a, s.a);
    KeyFirst(k.b, p.b, q.b, r.b, s.b);
    KeyFirst(k.c, p.c, q.c, r.c, s.c);
    KeyFirst(k.d, p.d, q.d, r.d, s.d);
  }

  /** One word of a round by the forward tables: substitution, mixing and the key. */
  lemma {:induction false} ForwardWord(k: Column, x: Column)
    ensures XorWords(Word(k), FT0(x.a), FT1(x.b), FT2(x.c), FT3(x.d)) == Word(XorColumn(MixColumn(SubColumn(x)), k))
  {
    hide Word, Xor4, Xtime, Times3, SBox, FT0, FT1, FT2, FT3, XorColumn, XorWords;
    ForwardTables(x.a);
    ForwardTables(x.b);
    ForwardTables(x.c);
    ForwardTables(x.d);
    var y := SubColumn(x);
    var a, b, c, d := y.a, y.b, y.c, y.d;
    var p, q := Column(Xtime(a), a, a, Times3(a)), Column(Times3(b), Xtime(b), b, b);
    var r, s := Column(c, Times3(c), Xtime(c), c), Column(d, d, Times3(d), Xtime(d));
    WordChain(k, p, q, r, s);
    XorRotate(Xtime(b), Times3(c), d, a);
    XorRotate(Xtime(c), Times3(d), a, b);
    XorRotate(b, Xtime(c), Times3(d), a);
    XorRotate(Times3(a), b, c, Xtime(d));
    assert Xor4Column(p, q, r, s) == MixColumn(y);
  }

  /** One word of a round of the equivalent inverse cipher. */
  lemma {:induction false} ReverseWord(k: Column, x: Column)
    ensures XorWords(Word(k), RT0(x.a), RT1(x.b), RT2(x.c), RT3(x.d)) == Word(XorColumn(InvMixColumn(InvSubColumn(x)), k))
  {
    hide Word, Xor4, Times9, Times11, Times13, Times14, InvSBox, RT0, RT1, RT2, RT3, XorColumn, XorWords;
    ReverseTables(x.a);
    ReverseTables(x.b);
    ReverseTables(x.c);
    ReverseTables(x.d);
    var y := InvSubColumn(x);
    var a, b, c, d := y.a, y.b, y.c, y.d;
    var p, q := Column(Times14(a), Times9(a), Times13(a), Times11(a)), Column(Times11(b), Times14(b), Times9(b), Times13(b));
    var r, s := Column(Times13(c), Times11(c), Times14(c), Times9(c)), Column(Times9(d), Times13(d), Times11(d), Times14(d));
    WordChain(k, p, q, r, s);
    XorRotate(Times14(b), Times11(c), Times13(d), Times9(a));
    XorRotate(Times14(c), Times11(d), Times13(a), Times9(b));
    XorRotate(Times9(b), Times14(c), Times11(d), Times13(a));
    XorRotate(Times11(a), Times13(b), Times9(c), Times14(d));
    assert Xor4Column(p, q, r, s) == InvMixColumn(y);
  }

  lemma {:induction false} SingleBytes(x: bv8)
    ensures x as bv32 == Word(Column(x, 0, 0, 0)) && (x as bv32) << 8 == Word(Column(0, x, 0, 0))
    ensures (x as bv32) << 16 == Word(Column(0, 0, x, 0)) && (x as bv32) << 24 == Word(Column(0, 0, 0, x))
  {}

  /** One word of the last round. */
  lemma {:induction false} LastWord(k: Column, y: Column)
    ensures XorWords(Word(k), y.a as bv32, (y.b as bv32) << 8, (y.c as bv32) << 16, (y.d as bv32) << 24)
            == Word(XorColumn(y, k))
  {
    hide Word, XorColumn, Xor4, XorWords;
    SingleBytes(y.a);
    SingleBytes(y.b);
    SingleBytes(y.c);
    SingleBytes(y.d);
    WordChain(k, Column(y.a, 0, 0, 0), Column(0, y.b, 0, 0), Column(0, 0, y.c, 0), Column(0, 0, 0, y.d));
    ZeroSum(y.a);
    ZeroSum(y.b);
    ZeroSum(y.c);
    ZeroSum(y.d);
    XorRotate(y.b, 0, 0, 0);
    XorRotate(y.c, 0, 0, 0);
    XorRotate(0, y.c, 0, 0);
    XorRotate(y.d, 0, 0, 0);
    XorRotate(0, y.d, 0, 0);
    XorRotate(0, 0, y.d, 0);
  }
}
