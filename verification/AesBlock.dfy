/** Encryption and decryption of a block under given round keys: the methods on words and tables against the
    cipher of FIPS 197, and decryption as the inverse of encryption. */
module AesBlock {
  import opened AesTables
  import opened AesCipher

  type Block = s: seq<bv8> | |s| == 16 witness seq(16, i => 0)

  function StateOf(b: Block): State {
    State(Column(b[0], b[1], b[2], b[3]), Column(b[4], b[5], b[6], b[7]),
          Column(b[8], b[9], b[10], b[11]), Column(b[12], b[13], b[14], b[15]))
  }

  function ColumnBytes(x: Column): (s: seq<bv8>)
    ensures |s| == 4
  {
    [x.a, x.b, x.c, x.d]
  }

  function BlockOf(s: State): Block {
    ColumnBytes(s.c0) + ColumnBytes(s.c1) + ColumnBytes(s.c2) + ColumnBytes(s.c3)
  }

  lemma {:induction false} BlockState(b: Block, s: State)
    ensures BlockOf(StateOf(b)) == b && StateOf(BlockOf(s)) == s
  {}

  function XorBlock(b: Block, t: Block): Block { seq(16, i requires 0 <= i < 16 => Xor(b[i], t[i])) }

  lemma {:induction false} XorBlockTwice(b: Block, t: Block)
    ensures XorBlock(XorBlock(b, t), t) == b
  {
    hide Xor;
    forall i | 0 <= i < 16 ensures Xor(Xor(b[i], t[i]), t[i]) == b[i] {
      XorLaws(b[i], t[i], t[i]);
      XorLaws(t[i], 0, 0);
      XorLaws(b[i], 0, 0);
    }
    var c := XorBlock(b, t);
    assert forall i :: 0 <= i < 16 ==> XorBlock(c, t)[i] == Xor(Xor(b[i], t[i]), t[i]);
  }

  function Key(rk: seq<bv32>, i: nat): State
    requires 4 * i + 4 <= |rk|
  {
    State(ColumnOf(rk[4 * i]), ColumnOf(rk[4 * i + 1]), ColumnOf(rk[4 * i + 2]), ColumnOf(rk[4 * i + 3]))
  }

  // ----- the cipher and its inverse, sections 5.1 and 5.3.5 of FIPS 197

  function SubShift(s: State): State { ShiftRows(SubBytes(s)) }

  function InvSubShift(s: State): State { InvSubBytes(InvShiftRows(s)) }

  function Rounds(rk: seq<bv32>, s: State, i: nat): State
    requires 4 * i + 4 <= |rk|
  {
    if i == 0 then AddRoundKey(s, Key(rk, 0)) else AddRoundKey(MixColumns(SubShift(Rounds(rk, s, i - 1))), Key(rk, i))
  }

  function Cipher(rk: seq<bv32>, nr: nat, s: State): State
    requires nr > 0 && 4 * nr + 4 <= |rk|
  {
    AddRoundKey(SubShift(Rounds(rk, s, nr - 1)), Key(rk, nr))
  }

  function InvRounds(dk: seq<bv32>, s: State, i: nat): State
    requires 4 * i + 4 <= |dk|
  {
    if i == 0 then AddRoundKey(s, Key(dk, 0))
    else AddRoundKey(InvMixColumns(InvSubShift(InvRounds(dk, s, i - 1))), Key(dk, i))
  }

  function InvCipher(dk: seq<bv32>, nr: nat, s: State): State
    requires nr > 0 && 4 * nr + 4 <= |dk|
  {
    AddRoundKey(InvSubShift(InvRounds(dk, s, nr - 1)), Key(dk, nr))
  }

  /** The round keys backwards, the inner ones unmixed. */
  predicate IsInverseSchedule(dk: seq<bv32>, rk: seq<bv32>, nr: nat)
    requires 4 * nr + 4 <= |dk| && 4 * nr + 4 <= |rk|
  {
    && Key(dk, 0) == Key(rk, nr) && Key(dk, nr) == Key(rk, 0)
    && forall i :: 0 < i < nr ==> Key(dk, i) == InvMixColumns(Key(rk, nr - i))
  }

  lemma {:induction false} XorTwice(s: State, k: State)
    ensures AddRoundKey(AddRoundKey(s, k), k) == s
  {
    hide Xor;
    forall x: bv8, y: bv8 ensures Xor(Xor(x, y), y) == x { XorLaws(x, y, y); XorLaws(y, 0, 0); XorLaws(x, 0, 0); }
  }

  lemma {:induction false} UnmixKeyed(s: State, k: State)
    ensures AddRoundKey(InvMixColumns(AddRoundKey(MixColumns(s), k)), InvMixColumns(k)) == s
  {
    hide MixColumn, InvMixColumn, XorColumn;
    InvMixXor(MixColumn(s.c0), k.c0);
    InvMixXor(MixColumn(s.c1), k.c1);
    InvMixXor(MixColumn(s.c2), k.c2);
    InvMixXor(MixColumn(s.c3), k.c3);
    MixInverse(s.c0);
    MixInverse(s.c1);
    MixInverse(s.c2);
    MixInverse(s.c3);
    XorTwice(s, InvMixColumns(k));
  }

  /** After i rounds of decryption the state is what it was nr - 1 - i rounds into the encryption, substituted and shifted. */
  lemma {:induction false} MeetInTheMiddle(dk: seq<bv32>, rk: seq<bv32>, nr: nat, s: State, i: nat)
    requires i < nr && 4 * nr + 4 <= |dk| && 4 * nr + 4 <= |rk| && IsInverseSchedule(dk, rk, nr)
    ensures InvRounds(dk, Cipher(rk, nr, s), i) == SubShift(Rounds(rk, s, nr - 1 - i))
    decreases i
  {
    hide Key, AddRoundKey, SubShift, InvSubShift, MixColumns, InvMixColumns;
    if i == 0 {
      XorTwice(SubShift(Rounds(rk, s, nr - 1)), Key(rk, nr));
    } else {
      MeetInTheMiddle(dk, rk, nr, s, i - 1);
      var r := Rounds(rk, s, nr - i);
      assert InvSubShift(SubShift(r)) == r by { SubShiftBack(r); }
      UnmixKeyed(SubShift(Rounds(rk, s, nr - 1 - i)), Key(rk, nr - i));
    }
  }

  lemma {:induction false} SubShiftBack(s: State)
    ensures InvSubShift(SubShift(s)) == s
  {
    SubShiftInverse(s);
  }

  /** Decryption inverts encryption, for whatever round keys. */
  lemma {:induction false} CipherInverse(dk: seq<bv32>, rk: seq<bv32>, nr: nat, s: State)
    requires nr > 0 && 4 * nr + 4 <= |dk| && 4 * nr + 4 <= |rk| && IsInverseSchedule(dk, rk, nr)
    ensures InvCipher(dk, nr, Cipher(rk, nr, s)) == s
  {
    hide Cipher, SubShift, InvSubShift, AddRoundKey, Key;
    MeetInTheMiddle(dk, rk, nr, s, nr - 1);
    SubShiftBack(Rounds(rk, s, 0));
    XorTwice(s, Key(rk, 0));
  }

  // ----- the methods

  /** The four words hold the state. */
  predicate Holds(s: State, x0: bv32, x1: bv32, x2: bv32, x3: bv32) {
    x0 == Word(s.c0) && x1 == Word(s.c1) && x2 == Word(s.c2) && x3 == Word(s.c3)
  }

  function Get32(b: Block, i: nat): bv32
    requires i + 4 <= 16
  {
    Word(Column(b[i], b[i + 1], b[i + 2], b[i + 3]))
  }

  function Put32(w: bv32): seq<bv8> { ColumnBytes(ColumnOf(w)) }

  lemma {:induction false} Unload(s: State, x0: bv32, x1: bv32, x2: bv32, x3: bv32)
    requires Holds(s, x0, x1, x2, x3)
    ensures Put32(x0) + Put32(x1) + Put32(x2) + Put32(x3) == BlockOf(s)
    ensures ColumnOf(x0) == s.c0 && ColumnOf(x1) == s.c1 && ColumnOf(x2) == s.c2 && ColumnOf(x3) == s.c3
  {
    hide Word, Byte0, Byte1, Byte2, Byte3;
    WordBytes(s.c0);
    WordBytes(s.c1);
    WordBytes(s.c2);
    WordBytes(s.c3);
  }

  /** A key word, its column and the word again. */
  lemma {:induction false} KeyWord(w: bv32, x: Column)
    ensures w == Word(ColumnOf(w))
    ensures XorWord(Word(x), w) == Word(XorColumn(x, ColumnOf(w)))
  {
    hide Word, Byte0, Byte1, Byte2, Byte3, XorColumn, XorWord;
    WordOfColumn(w);
    WordXor(x, ColumnOf(w));
  }

  /** A round by the forward tables. */
  method ForwardRound(rk: array<bv32>, p: nat, y0: bv32, y1: bv32, y2: bv32, y3: bv32, ghost i: nat, ghost k: seq<bv32>, ghost s: State)
    returns (x0: bv32, x1: bv32, x2: bv32, x3: bv32)
    requires p == 4 * i && p + 4 <= |k| && k <= rk[..] && Holds(s, y0, y1, y2, y3)
    ensures Holds(AddRoundKey(MixColumns(SubShift(s)), Key(k, i)), x0, x1, x2, x3)
  {
    hide Word, Byte0, Byte1, Byte2, Byte3, FT0, FT1, FT2, FT3, XorWords, MixColumn, SubColumn, XorColumn;
    Unload(s, y0, y1, y2, y3);
    ForwardKeyed(rk[p], Column(s.c0.a, s.c1.b, s.c2.c, s.c3.d));
    ForwardKeyed(rk[p + 1], Column(s.c1.a, s.c2.b, s.c3.c, s.c0.d));
    ForwardKeyed(rk[p + 2], Column(s.c2.a, s.c3.b, s.c0.c, s.c1.d));
    ForwardKeyed(rk[p + 3], Column(s.c3.a, s.c0.b, s.c1.c, s.c2.d));
    ShiftedSub(s);
    x0 := XorWords(rk[p], FT0(Byte0(y0)), FT1(Byte1(y1)), FT2(Byte2(y2)), FT3(Byte3(y3)));
    x1 := XorWords(rk[p + 1], FT0(Byte0(y1)), FT1(Byte1(y2)), FT2(Byte2(y3)), FT3(Byte3(y0)));
    x2 := XorWords(rk[p + 2], FT0(Byte0(y2)), FT1(Byte1(y3)), FT2(Byte2(y0)), FT3(Byte3(y1)));
    x3 := XorWords(rk[p + 3], FT0(Byte0(y3)), FT1(Byte1(y0)), FT2(Byte2(y1)), FT3(Byte3(y2)));
  }

  lemma {:induction false} ForwardKeyed(w: bv32, x: Column)
    ensures XorWords(w, FT0(x.a), FT1(x.b), FT2(x.c), FT3(x.d)) == Word(XorColumn(MixColumn(SubColumn(x)), ColumnOf(w)))
  {
    hide *;
    WordOfColumn(w);
    ForwardWord(ColumnOf(w), x);
  }

  /** Substituting and shifting can be done in either order. */
  lemma {:induction false} ShiftedSub(s: State)
    ensures var t := SubShift(s);
            && t.c0 == SubColumn(Column(s.c0.a, s.c1.b, s.c2.c, s.c3.d))
            && t.c1 == SubColumn(Column(s.c1.a, s.c2.b, s.c3.c, s.c0.d))
            && t.c2 == SubColumn(Column(s.c2.a, s.c3.b, s.c0.c, s.c1.d))
            && t.c3 == SubColumn(Column(s.c3.a, s.c0.b, s.c1.c, s.c2.d))
  {
    hide SBox;
  }

  /** A round of the equivalent inverse cipher by the reverse tables. */
  method ReverseRound(dk: array<bv32>, p: nat, y0: bv32, y1: bv32, y2: bv32, y3: bv32, ghost i: nat, ghost k: seq<bv32>, ghost s: State)
    returns (x0: bv32, x1: bv32, x2: bv32, x3: bv32)
    requires p == 4 * i && p + 4 <= |k| && k <= dk[..] && Holds(s, y0, y1, y2, y3)
    ensures Holds(AddRoundKey(InvMixColumns(InvSubShift(s)), Key(k, i)), x0, x1, x2, x3)
  {
    hide Word, Byte0, Byte1, Byte2, Byte3, RT0, RT1, RT2, RT3, XorWords, InvMixColumn, InvSubColumn, XorColumn;
    Unload(s, y0, y1, y2, y3);
    ReverseKeyed(dk[p], Column(s.c0.a, s.c3.b, s.c2.c, s.c1.d));
    ReverseKeyed(dk[p + 1], Column(s.c1.a, s.c0.b, s.c3.c, s.c2.d));
    ReverseKeyed(dk[p + 2], Column(s.c2.a, s.c1.b, s.c0.c, s.c3.d));
    ReverseKeyed(dk[p + 3], Column(s.c3.a, s.c2.b, s.c1.c, s.c0.d));
    x0 := XorWords(dk[p], RT0(Byte0(y0)), RT1(Byte1(y3)), RT2(Byte2(y2)), RT3(Byte3(y1)));
    x1 := XorWords(dk[p + 1], RT0(Byte0(y1)), RT1(Byte1(y0)), RT2(Byte2(y3)), RT3(Byte3(y2)));
    x2 := XorWords(dk[p + 2], RT0(Byte0(y2)), RT1(Byte1(y1)), RT2(Byte2(y0)), RT3(Byte3(y3)));
    x3 := XorWords(dk[p + 3], RT0(Byte0(y3)), RT1(Byte1(y2)), RT2(Byte2(y1)), RT3(Byte3(y0)));
  }

  lemma {:induction false} ReverseKeyed(w: bv32, x: Column)
    ensures XorWords(w, RT0(x.a), RT1(x.b), RT2(x.c), RT3(x.d)) == Word(XorColumn(InvMixColumn(InvSubColumn(x)), ColumnOf(w)))
  {
    hide *;
    WordOfColumn(w);
    ReverseWord(ColumnOf(w), x);
  }

  /** The last round, without mixing: y is the substituted column. */
  function LastRound(w: bv32, a: bv8, b: bv8, c: bv8, d: bv8): bv32 {
    XorWords(w, a as bv32, (b as bv32) << 8, (c as bv32) << 16, (d as bv32) << 24)
  }

  lemma {:induction false} LastKeyed(w: bv32, y: Column)
    ensures LastRound(w, y.a, y.b, y.c, y.d) == Word(XorColumn(y, ColumnOf(w)))
  {
    hide XorWords, Word, XorColumn, Byte0, Byte1, Byte2, Byte3;
    WordOfColumn(w);
    LastWord(ColumnOf(w), y);
  }

  method Load(rk: array<bv32>, input: Block, ghost k: seq<bv32>) returns (x0: bv32, x1: bv32, x2: bv32, x3: bv32)
    requires |k| >= 4 && k <= rk[..]
    ensures Holds(AddRoundKey(StateOf(input), Key(k, 0)), x0, x1, x2, x3)
  {
    hide Word, Byte0, Byte1, Byte2, Byte3, XorColumn;
    KeyWord(rk[0], StateOf(input).c0);
    KeyWord(rk[1], StateOf(input).c1);
    KeyWord(rk[2], StateOf(input).c2);
    KeyWord(rk[3], StateOf(input).c3);
    x0 := XorWord(Get32(input, 0), rk[0]);
    x1 := XorWord(Get32(input, 4), rk[1]);
    x2 := XorWord(Get32(input, 8), rk[2]);
    x3 := XorWord(Get32(input, 12), rk[3]);
  }

  method EncryptLast(rk: array<bv32>, p: nat, y0: bv32, y1: bv32, y2: bv32, y3: bv32, ghost i: nat, ghost k: seq<bv32>, ghost s: State)
    returns (output: Block)
    requires p == 4 * i && p + 4 <= |k| && k <= rk[..] && Holds(s, y0, y1, y2, y3)
    ensures output == BlockOf(AddRoundKey(SubShift(s), Key(k, i)))
  {
    hide Word, Byte0, Byte1, Byte2, Byte3, LastRound, XorColumn, SBox;
    Unload(s, y0, y1, y2, y3);
    var t := SubShift(s);
    LastKeyed(rk[p], t.c0);
    LastKeyed(rk[p + 1], t.c1);
    LastKeyed(rk[p + 2], t.c2);
    LastKeyed(rk[p + 3], t.c3);
    var x0 := LastRound(rk[p], SBox(Byte0(y0)), SBox(Byte1(y1)), SBox(Byte2(y2)), SBox(Byte3(y3)));
    var x1 := LastRound(rk[p + 1], SBox(Byte0(y1)), SBox(Byte1(y2)), SBox(Byte2(y3)), SBox(Byte3(y0)));
    var x2 := LastRound(rk[p + 2], SBox(Byte0(y2)), SBox(Byte1(y3)), SBox(Byte2(y0)), SBox(Byte3(y1)));
    var x3 := LastRound(rk[p + 3], SBox(Byte0(y3)), SBox(Byte1(y0)), SBox(Byte2(y1)), SBox(Byte3(y2)));
    Unload(AddRoundKey(t, Key(k, i)), x0, x1, x2, x3);
    output := Put32(x0) + Put32(x1) + Put32(x2) + Put32(x3);
  }

  method DecryptLast(dk: array<bv32>, p: nat, y0: bv32, y1: bv32, y2: bv32, y3: bv32, ghost i: nat, ghost k: seq<bv32>, ghost s: State)
    returns (output: Block)
    requires p == 4 * i && p + 4 <= |k| && k <= dk[..] && Holds(s, y0, y1, y2, y3)
    ensures output == BlockOf(AddRoundKey(InvSubShift(s), Key(k, i)))
  {
    hide Word, Byte0, Byte1, Byte2, Byte3, LastRound, XorColumn, InvSBox;
    Unload(s, y0, y1, y2, y3);
    var t := InvSubShift(s);
    LastKeyed(dk[p], t.c0);
    LastKeyed(dk[p + 1], t.c1);
    LastKeyed(dk[p + 2], t.c2);
    LastKeyed(dk[p + 3], t.c3);
    var x0 := LastRound(dk[p], InvSBox(Byte0(y0)), InvSBox(Byte1(y3)), InvSBox(Byte2(y2)), InvSBox(Byte3(y1)));
    var x1 := LastRound(dk[p + 1], InvSBox(Byte0(y1)), InvSBox(Byte1(y0)), InvSBox(Byte2(y3)), InvSBox(Byte3(y2)));
    var x2 := LastRound(dk[p + 2], InvSBox(Byte0(y2)), InvSBox(Byte1(y1)), InvSBox(Byte2(y0)), InvSBox(Byte3(y3)));
    var x3 := LastRound(dk[p + 3], InvSBox(Byte0(y3)), InvSBox(Byte1(y2)), InvSBox(Byte2(y1)), InvSBox(Byte3(y0)));
    Unload(AddRoundKey(t, Key(k, i)), x0, x1, x2, x3);
    output := Put32(x0) + Put32(x1) + Put32(x2) + Put32(x3);
  }

  lemma {:induction false} RoundSteps(rk: seq<bv32>, s: State, i: nat)
    requires 4 * i + 4 <= |rk|
    ensures Rounds(rk, s, 0) == InvRounds(rk, s, 0) == AddRoundKey(s, Key(rk, 0))
    ensures i > 0 ==> Rounds(rk, s, i) == AddRoundKey(MixColumns(SubShift(Rounds(rk, s, i - 1))), Key(rk, i))
    ensures i > 0 ==> InvRounds(rk, s, i) == AddRoundKey(InvMixColumns(InvSubShift(InvRounds(rk, s, i - 1))), Key(rk, i))
  {
    hide AddRoundKey, MixColumns, InvMixColumns, SubShift, InvSubShift, Key;
  }

  lemma {:induction false} CipherSteps(rk: seq<bv32>, nr: nat, s: State)
    requires nr > 0 && 4 * nr + 4 <= |rk|
    ensures Cipher(rk, nr, s) == AddRoundKey(SubShift(Rounds(rk, s, nr - 1)), Key(rk, nr))
    ensures InvCipher(rk, nr, s) == AddRoundKey(InvSubShift(InvRounds(rk, s, nr - 1)), Key(rk, nr))
  {
    hide AddRoundKey, SubShift, InvSubShift, Rounds, InvRounds, Key;
  }

  /** The round keys k stand at the beginning of the array. */
  method Encrypt(rk: array<bv32>, nr: nat, input: Block, ghost k: seq<bv32>) returns (output: Block)
    requires nr >= 2 && nr % 2 == 0 && |k| == 4 * nr + 4 && k <= rk[..]
    ensures output == BlockOf(Cipher(k, nr, StateOf(input)))
  {
    hide *;
    ghost var s := StateOf(input);
    ghost var r := 0;
    var x0, x1, x2, x3 := Load(rk, input, k);
    RoundSteps(k, s, 0);
    var p := 4;
    var i := nr / 2 - 1;
    while i > 0
      invariant 0 <= i && 2 * i + r + 2 == nr && p == 4 * (r + 1)
      invariant Holds(Rounds(k, s, r), x0, x1, x2, x3)
    {
      RoundSteps(k, s, r + 1);
      RoundSteps(k, s, r + 2);
      var y0, y1, y2, y3 := ForwardRound(rk, p, x0, x1, x2, x3, r + 1, k, Rounds(k, s, r));
      x0, x1, x2, x3 := ForwardRound(rk, p + 4, y0, y1, y2, y3, r + 2, k, Rounds(k, s, r + 1));
      r := r + 2;
      p := p + 8;
      i := i - 1;
    }
    RoundSteps(k, s, r + 1);
    var y0, y1, y2, y3 := ForwardRound(rk, p, x0, x1, x2, x3, r + 1, k, Rounds(k, s, r));
    output := EncryptLast(rk, p + 4, y0, y1, y2, y3, nr, k, Rounds(k, s, r + 1));
    CipherSteps(k, nr, s);
  }

  /** The round keys k stand at the beginning of the array. */
  method Decrypt(dk: array<bv32>, nr: nat, input: Block, ghost k: seq<bv32>) returns (output: Block)
    requires nr >= 2 && nr % 2 == 0 && |k| == 4 * nr + 4 && k <= dk[..]
    ensures output == BlockOf(InvCipher(k, nr, StateOf(input)))
  {
    hide *;
    ghost var s := StateOf(input);
    ghost var r := 0;
    var x0, x1, x2, x3 := Load(dk, input, k);
    RoundSteps(k, s, 0);
    var p := 4;
    var i := nr / 2 - 1;
    while i > 0
      invariant 0 <= i && 2 * i + r + 2 == nr && p == 4 * (r + 1)
      invariant Holds(InvRounds(k, s, r), x0, x1, x2, x3)
    {
      RoundSteps(k, s, r + 1);
      RoundSteps(k, s, r + 2);
      var y0, y1, y2, y3 := ReverseRound(dk, p, x0, x1, x2, x3, r + 1, k, InvRounds(k, s, r));
      x0, x1, x2, x3 := ReverseRound(dk, p + 4, y0, y1, y2, y3, r + 2, k, InvRounds(k, s, r + 1));
      r := r + 2;
      p := p + 8;
      i := i - 1;
    }
    RoundSteps(k, s, r + 1);
    var y0, y1, y2, y3 := ReverseRound(dk, p, x0, x1, x2, x3, r + 1, k, InvRounds(k, s, r));
    output := DecryptLast(dk, p + 4, y0, y1, y2, y3, nr, k, InvRounds(k, s, r + 1));
    CipherSteps(k, nr, s);
  }
}
