/** The AES context: key schedules of section 5.2 of FIPS 197, and the block cipher under a key. */
module AesKeys {
  import opened AesTables
  import opened AesCipher
  import opened AesBlock

  // ----- key expansion

  function Rcon(j: nat): bv8 { if j == 0 then 1 else Xtime(Rcon(j - 1)) }

  function RotWord(x: Column): Column { Column(x.b, x.c, x.d, x.a) }

  predicate IsKeyLength(nk: nat) { nk == 4 || nk == 6 || nk == 8 }

  /** What is added to the word nk places before the i-th one. */
  function Addend(previous: Column, nk: nat, i: nat): Column
    requires 0 < nk <= i
  {
    if i % nk == 0 then XorColumn(SubColumn(RotWord(previous)), Column(Rcon(i / nk - 1), 0, 0, 0))
    else if nk > 6 && i % nk == 4 then SubColumn(previous)
    else previous
  }

  /** The i-th word of the expanded key. */
  function Expanded(key: seq<Column>, i: nat): Column
    requires |key| > 0
    decreases i
  {
    if i < |key| then key[i] else XorColumn(Expanded(key, i - |key|), Addend(Expanded(key, i - 1), |key|, i))
  }

  /** What the code computes for words at multiples of the key length. */
  function RotSubWord(before: bv32, previous: bv32, rcon: bv8): bv32 {
    LastRound(XorWord(before, rcon as bv32),
              SBox(Byte1(previous)), SBox(Byte2(previous)), SBox(Byte3(previous)), SBox(Byte0(previous)))
  }

  function SubXorWord(before: bv32, previous: bv32): bv32 {
    LastRound(before, SBox(Byte0(previous)), SBox(Byte1(previous)), SBox(Byte2(previous)), SBox(Byte3(previous)))
  }

  lemma {:induction false} ColumnLaws(x: Column, y: Column, z: Column)
    ensures XorColumn(x, XorColumn(y, z)) == XorColumn(y, XorColumn(x, z)) && XorColumn(x, y) == XorColumn(y, x)
  {
    hide Xor;
    forall p: bv8, q: bv8, r: bv8 ensures Xor(p, Xor(q, r)) == Xor(q, Xor(p, r)) && Xor(p, q) == Xor(q, p) {
      XorLaws(p, q, r);
      XorLaws(q, p, r);
    }
  }

  lemma {:induction false} RotSubColumn(before: Column, previous: Column, rcon: bv8)
    ensures RotSubWord(Word(before), Word(previous), rcon)
            == Word(XorColumn(before, XorColumn(SubColumn(RotWord(previous)), Column(rcon, 0, 0, 0))))
  {
    hide Word, Byte0, Byte1, Byte2, Byte3, LastRound, XorWord, XorColumn, SBox;
    WordBytes(previous);
    SingleBytes(rcon);
    var k, y := XorColumn(before, Column(rcon, 0, 0, 0)), SubColumn(RotWord(previous));
    WordXor(before, Column(rcon, 0, 0, 0));
    WordBytes(k);
    LastKeyed(Word(k), y);
    ColumnLaws(y, before, Column(rcon, 0, 0, 0));
  }

  lemma {:induction false} SubXorColumn(before: Column, previous: Column)
    ensures SubXorWord(Word(before), Word(previous)) == Word(XorColumn(before, SubColumn(previous)))
  {
    hide Word, Byte0, Byte1, Byte2, Byte3, LastRound, XorColumn, SBox;
    WordBytes(previous);
    WordBytes(before);
    LastKeyed(Word(before), SubColumn(previous));
    ColumnLaws(SubColumn(previous), before, before);
  }

  /** The three kinds of steps of the expansion. */
  lemma {:induction false} ExpandStep(key: seq<Column>, i: nat)
    requires IsKeyLength(|key|) && |key| <= i
    ensures var nk := |key|;
            var before, previous, w := Word(Expanded(key, i - nk)), Word(Expanded(key, i - 1)), Word(Expanded(key, i));
            && (i % nk == 0 ==> w == RotSubWord(before, previous, Rcon(i / nk - 1)))
            && (nk == 8 && i % nk == 4 ==> w == SubXorWord(before, previous))
            && (i % nk != 0 && !(nk == 8 && i % nk == 4) ==> w == XorWord(before, previous))
  {
    hide Word, SubColumn, XorColumn, RotSubWord, SubXorWord, XorWord, RotWord, Rcon;
    var b, p := Expanded(key, i - |key|), Expanded(key, i - 1);
    RotSubColumn(b, p, Rcon(i / |key| - 1));
    SubXorColumn(b, p);
    WordXor(b, p);
  }

  /** The first n words are those of the expanded key. */
  ghost predicate Filled(rk: array<bv32>, key: seq<Column>, n: nat)
    requires |key| > 0
    reads rk
  {
    n <= rk.Length && forall j :: 0 <= j < n ==> rk[j] == Word(Expanded(key, j))
  }

  method Store(rk: array<bv32>, n: nat, w: bv32, ghost key: seq<Column>)
    requires |key| > 0 && Filled(rk, key, n) && n < rk.Length && w == Word(Expanded(key, n))
    modifies rk
    ensures Filled(rk, key, n + 1)
  {
    hide Word, Expanded;
    rk[n] := w;
  }

  /** A word at a multiple of the key length nk; i counts these words. */
  method StoreRotated(rk: array<bv32>, nk: nat, i: nat, ghost key: seq<Column>)
    requires IsKeyLength(nk) && nk == |key| && nk * i + nk < rk.Length && Filled(rk, key, nk * i + nk)
    modifies rk
    ensures Filled(rk, key, nk * i + nk + 1)
  {
    hide Word, Expanded, RotSubWord, Rcon;
    var n := nk * i + nk;
    MultipleOf(nk, i, 0);
    ExpandStep(key, n);
    Store(rk, n, RotSubWord(rk[n - nk], rk[n - 1], Rcon(i)), key);
  }

  lemma {:induction false} MultipleOf(nk: nat, i: nat, k: nat)
    requires IsKeyLength(nk) && k < nk
    ensures (nk * i + nk) / nk - 1 == i && (nk * i + nk + k) % nk == k
  {}

  /** Words of the plain kind, `count` of them from the k-th behind a multiple of nk on. */
  method StorePlain(rk: array<bv32>, nk: nat, i: nat, k: nat, count: nat, ghost key: seq<Column>)
    requires IsKeyLength(nk) && nk == |key| && 0 < k && k + count <= nk && (nk == 8 ==> k > 4 || k + count <= 4)
    requires nk * i + nk + k + count <= rk.Length && Filled(rk, key, nk * i + nk + k)
    modifies rk
    ensures Filled(rk, key, nk * i + nk + k + count)
  {
    hide Word, Expanded, XorWord;
    var n := nk * i + nk + k;
    var j := 0;
    while j < count
      invariant 0 <= j <= count && Filled(rk, key, n + j)
    {
      MultipleOf(nk, i, k + j);
      ExpandStep(key, n + j);
      Store(rk, n + j, XorWord(rk[n + j - nk], rk[n + j - 1]), key);
      j := j + 1;
    }
  }

  /** Only in 256-bit keys. */
  method StoreSubstituted(rk: array<bv32>, i: nat, ghost key: seq<Column>)
    requires |key| == 8 && 8 * i + 12 < rk.Length && Filled(rk, key, 8 * i + 12)
    modifies rk
    ensures Filled(rk, key, 8 * i + 13)
  {
    hide Word, Expanded, SubXorWord;
    var n := 8 * i + 12;
    ExpandStep(key, n);
    Store(rk, n, SubXorWord(rk[n - 8], rk[n - 1]), key);
  }

  method Expand128(rk: array<bv32>, ghost key: seq<Column>)
    requires |key| == 4 && rk.Length >= 44 && Filled(rk, key, 4)
    modifies rk
    ensures Filled(rk, key, 44)
  {
    hide Filled;
    for i := 0 to 10
      invariant Filled(rk, key, 4 * i + 4)
    {
      StoreRotated(rk, 4, i, key);
      StorePlain(rk, 4, i, 1, 3, key);
    }
  }

  method Expand192(rk: array<bv32>, ghost key: seq<Column>)
    requires |key| == 6 && rk.Length >= 54 && Filled(rk, key, 6)
    modifies rk
    ensures Filled(rk, key, 54)
  {
    hide Filled;
    for i := 0 to 8
      invariant Filled(rk, key, 6 * i + 6)
    {
      StoreRotated(rk, 6, i, key);
      StorePlain(rk, 6, i, 1, 5, key);
    }
  }

  method Expand256(rk: array<bv32>, ghost key: seq<Column>)
    requires |key| == 8 && rk.Length >= 64 && Filled(rk, key, 8)
    modifies rk
    ensures Filled(rk, key, 64)
  {
    hide Filled;
    for i := 0 to 7
      invariant Filled(rk, key, 8 * i + 8)
    {
      StoreRotated(rk, 8, i, key);
      StorePlain(rk, 8, i, 1, 3, key);
      StoreSubstituted(rk, i, key);
      StorePlain(rk, 8, i, 5, 3, key);
    }
  }

  // ----- the cipher under a key

  type AesKey = k: seq<bv8> | |k| == 16 || |k| == 24 || |k| == 32 witness seq(16, i => 0)

  function KeyColumns(key: seq<bv8>): (s: seq<Column>)
    requires |key| % 4 == 0
    ensures |s| == |key| / 4
    ensures forall i :: 0 <= i < |s| ==> s[i] == Column(key[4 * i], key[4 * i + 1], key[4 * i + 2], key[4 * i + 3])
  {
    seq(|key| / 4, i requires 0 <= i < |key| / 4 => Column(key[4 * i], key[4 * i + 1], key[4 * i + 2], key[4 * i + 3]))
  }

  function NumRounds(key: AesKey): nat { |key| / 4 + 6 }

  function Schedule(key: AesKey): (rk: seq<bv32>)
    ensures |rk| == 4 * NumRounds(key) + 4
  {
    seq(4 * NumRounds(key) + 4, i requires i >= 0 => Word(Expanded(KeyColumns(key), i)))
  }

  function UnmixWord(w: bv32): bv32 { Word(InvMixColumn(ColumnOf(w))) }

  /** Word i of the backward schedule: the round keys in reverse order, the inner ones unmixed. */
  function InvWord(rk: seq<bv32>, nr: nat, i: nat): bv32
    requires i < 4 * nr + 4 <= |rk|
  {
    var w := rk[4 * (nr - i / 4) + i % 4];
    if 4 <= i < 4 * nr then UnmixWord(w) else w
  }

  function InvSchedule(key: AesKey): (dk: seq<bv32>)
    ensures |dk| == 4 * NumRounds(key) + 4
  {
    var nr, rk := NumRounds(key), Schedule(key);
    seq(4 * nr + 4, i requires 0 <= i < 4 * nr + 4 => InvWord(rk, nr, i))
  }

  function AesEncrypt(key: AesKey, b: Block): Block { BlockOf(Cipher(Schedule(key), NumRounds(key), StateOf(b))) }

  function AesDecrypt(key: AesKey, b: Block): Block { BlockOf(InvCipher(InvSchedule(key), NumRounds(key), StateOf(b))) }

  function Encryption(key: AesKey): Block -> Block { (b: Block) => AesEncrypt(key, b) }

  function Decryption(key: AesKey): Block -> Block { (b: Block) => AesDecrypt(key, b) }

  lemma {:induction false} UnmixedColumn(w: bv32)
    ensures ColumnOf(UnmixWord(w)) == InvMixColumn(ColumnOf(w))
  {}

  lemma {:induction false} InvWordAt(rk: seq<bv32>, nr: nat, i: nat, j: nat)
    requires i <= nr && j < 4 && 4 * nr + 4 <= |rk|
    ensures InvWord(rk, nr, 4 * i + j)
            == var w := rk[4 * (nr - i) + j]; if 0 < i < nr then UnmixWord(w) else w
  {
    hide UnmixWord;
    assert (4 * i + j) / 4 == i && (4 * i + j) % 4 == j;
  }

  lemma {:induction false} BackwardKey(rk: seq<bv32>, dk: seq<bv32>, nr: nat, i: nat)
    requires i <= nr && |dk| == 4 * nr + 4 <= |rk|
    requires forall j :: 0 <= j < 4 * nr + 4 ==> dk[j] == InvWord(rk, nr, j)
    ensures Key(dk, i) == if 0 < i < nr then InvMixColumns(Key(rk, nr - i)) else Key(rk, nr - i)
  {
    hide UnmixWord, ColumnOf, InvMixColumn, InvWord;
    var k := 4 * (nr - i);
    InvWordAt(rk, nr, i, 0);
    InvWordAt(rk, nr, i, 1);
    InvWordAt(rk, nr, i, 2);
    InvWordAt(rk, nr, i, 3);
    UnmixedColumn(rk[k]);
    UnmixedColumn(rk[k + 1]);
    UnmixedColumn(rk[k + 2]);
    UnmixedColumn(rk[k + 3]);
  }

  /** The second function undoes the first. */
  ghost predicate AreInverse(encrypt: Block -> Block, decrypt: Block -> Block) {
    forall b: Block :: decrypt(encrypt(b)) == b
  }

  /** For every key of 128, 192 or 256 bits and every block, decryption inverts encryption. */
  lemma {:induction false} AesInverse(key: AesKey)
    ensures AreInverse(Encryption(key), Decryption(key))
  {
    hide Key, Cipher, InvCipher, StateOf, BlockOf, InvWord, Schedule;
    var rk, dk, nr := Schedule(key), InvSchedule(key), NumRounds(key);
    forall i | 0 <= i <= nr
      ensures Key(dk, i) == if 0 < i < nr then InvMixColumns(Key(rk, nr - i)) else Key(rk, nr - i)
    {
      BackwardKey(rk, dk, nr, i);
    }
    forall b: Block ensures Decryption(key)(Encryption(key)(b)) == b {
      CipherInverse(dk, rk, nr, StateOf(b));
      BlockState(b, Cipher(rk, nr, StateOf(b)));
    }
  }

  // ----- the context

  datatype KeyStatus = KeyOk | InvalidKeyLength

  datatype Mode = EncryptMode | DecryptMode

  predicate IsKeyBits(keybits: nat) { keybits == 128 || keybits == 192 || keybits == 256 }

  class Context {
    var nr: nat
    const rk: array<bv32>

    constructor ()
      ensures fresh(rk) && rk.Length == 68
    {
      nr := 0;
      rk := new bv32[68];
    }

    ghost predicate EncryptsWith(key: AesKey)
      reads this, rk
    {
      rk.Length == 68 && nr == NumRounds(key) && Schedule(key) <= rk[..]
    }

    ghost predicate DecryptsWith(key: AesKey)
      reads this, rk
    {
      rk.Length == 68 && nr == NumRounds(key) && InvSchedule(key) <= rk[..]
    }

    method SetkeyEnc(key: seq<bv8>, keybits: nat) returns (status: KeyStatus)
      requires rk.Length == 68 && (IsKeyBits(keybits) ==> |key| == keybits / 8)
      modifies this`nr, rk
      ensures status == if keybits in {128, 192, 256} then KeyOk else InvalidKeyLength
      ensures IsKeyBits(keybits) ==> EncryptsWith(key)
      ensures !IsKeyBits(keybits) ==> nr == old(nr) && rk[..] == old(rk[..])
    {
      hide Word, Expanded, KeyColumns;
      if keybits == 128 { nr := 10; } else if keybits == 192 { nr := 12; } else if keybits == 256 { nr := 14; }
      else { return InvalidKeyLength; }
      ghost var k := KeyColumns(key);
      LoadKey(rk, key);
      if nr == 10 { Expand128(rk, k); } else if nr == 12 { Expand192(rk, k); } else { Expand256(rk, k); }
      assert Schedule(key) <= rk[..] by { FilledSchedule(key, rk, 4 * nr + 4); }
      return KeyOk;
    }

    method SetkeyDec(key: seq<bv8>, keybits: nat) returns (status: KeyStatus)
      requires rk.Length == 68 && (IsKeyBits(keybits) ==> |key| == keybits / 8)
      modifies this`nr, rk
      ensures status == if keybits in {128, 192, 256} then KeyOk else InvalidKeyLength
      ensures IsKeyBits(keybits) ==> DecryptsWith(key)
      ensures !IsKeyBits(keybits) ==> nr == old(nr) && rk[..] == old(rk[..])
    {
      hide InvWord, Schedule, UnmixWord, Unmixed;
      var cty := new Context();
      status := cty.SetkeyEnc(key, keybits);
      if status != KeyOk { return; }
      nr := cty.nr;
      ghost var s := cty.rk[..];
      Copy4(cty.rk, 4 * nr, 0, nr);
      var i := nr - 1;
      while i > 0
        invariant nr == NumRounds(key) && 0 <= i < nr && cty.rk[..] == s && Backward(s, 4 * (nr - i))
      {
        Unmix4(cty.rk, 4 * i, 4 * (nr - i), i);
        i := i - 1;
      }
      Copy4(cty.rk, 0, 4 * nr, 0);
      BackwardSchedule(key, s);
    }

    /** The first n words are those of the backward schedule of s. */
    ghost predicate Backward(s: seq<bv32>, n: nat)
      reads this, rk
    {
      |s| == rk.Length == 68 && nr <= 14 && n <= 4 * nr + 4 && forall j :: 0 <= j < n ==> rk[j] == InvWord(s, nr, j)
    }

    /** The outer round keys: i is the number of the round whose key is copied. */
    method Copy4(sk: array<bv32>, from: nat, to: nat, ghost i: nat)
      requires sk != rk && sk.Length == 68 && nr <= 14 && (i == 0 || i == nr) && from == 4 * i && to == 4 * (nr - i)
      requires Backward(sk[..], to)
      modifies rk
      ensures Backward(sk[..], to + 4)
    {
      hide UnmixWord, InvWord;
      ghost var s := sk[..];
      InvWordAt(s, nr, nr - i, 0);
      InvWordAt(s, nr, nr - i, 1);
      InvWordAt(s, nr, nr - i, 2);
      InvWordAt(s, nr, nr - i, 3);
      rk[to], rk[to + 1], rk[to + 2], rk[to + 3] := sk[from], sk[from + 1], sk[from + 2], sk[from + 3];
    }

    /** An inner round key. */
    method Unmix4(sk: array<bv32>, from: nat, to: nat, ghost i: nat)
      requires sk != rk && sk.Length == 68 && nr <= 14 && 0 < i < nr && from == 4 * i && to == 4 * (nr - i)
      requires Backward(sk[..], to)
      modifies rk
      ensures Backward(sk[..], to + 4)
    {
      hide UnmixWord, InvWord, Unmixed;
      ghost var s := sk[..];
      var j := 0;
      while j < 4
        invariant 0 <= j <= 4 && Backward(s, to + j)
      {
        InvWordAt(s, nr, nr - i, j);
        UnmixedWord(sk[from + j]);
        rk[to + j] := Unmixed(sk[from + j]);
        j := j + 1;
      }
    }

    lemma {:induction false} BackwardSchedule(key: AesKey, s: seq<bv32>)
      requires nr == NumRounds(key) && Backward(s, 4 * nr + 4) && Schedule(key) <= s
      ensures DecryptsWith(key)
    {
      hide UnmixWord, Schedule;
      assert rk[..4 * nr + 4] == InvSchedule(key);
    }

    method EncryptBlock(input: Block, ghost key: AesKey) returns (output: Block)
      requires EncryptsWith(key)
      ensures output == AesEncrypt(key, input)
    {
      hide Cipher, StateOf, BlockOf, Schedule;
      output := Encrypt(rk, nr, input, Schedule(key));
    }

    method DecryptBlock(input: Block, ghost key: AesKey) returns (output: Block)
      requires DecryptsWith(key)
      ensures output == AesDecrypt(key, input)
    {
      hide InvCipher, StateOf, BlockOf, InvSchedule;
      output := Decrypt(rk, nr, input, InvSchedule(key));
    }
  }

  /** The decryption schedule unmixes a word by substituting its bytes and looking up the reverse tables,
      which substitute them back. */
  function Unmixed(w: bv32): bv32 {
    XorWord(XorWord(XorWord(RT0(SBox(Byte0(w))), RT1(SBox(Byte1(w)))), RT2(SBox(Byte2(w)))), RT3(SBox(Byte3(w))))
  }

  lemma {:induction false} UnmixedWord(w: bv32)
    ensures Unmixed(w) == UnmixWord(w)
  {
    hide RT0, RT1, RT2, RT3, Word, SBox, InvSubColumn, InvMixColumn, XorColumn, Byte0, Byte1, Byte2, Byte3, XorWords;
    var x := SubColumn(ColumnOf(w));
    var zero := Column(0, 0, 0, 0);
    SubColumnInverse(ColumnOf(w));
    ReverseWord(zero, x);
    FromZero(RT0(x.a), RT1(x.b), RT2(x.c), RT3(x.d));
    PlusZero(InvMixColumn(ColumnOf(w)));
  }

  lemma {:induction false} FromZero(p: bv32, q: bv32, r: bv32, s: bv32)
    ensures XorWords(Word(Column(0, 0, 0, 0)), p, q, r, s) == XorWord(XorWord(XorWord(p, q), r), s)
  {
    hide XorWord;
    assert XorWord(Word(Column(0, 0, 0, 0)), p) == p by { ZeroFirst(p); }
  }

  lemma {:induction false} ZeroFirst(p: bv32)
    ensures XorWord(Word(Column(0, 0, 0, 0)), p) == p
  {}

  lemma {:induction false} PlusZero(x: Column)
    ensures XorColumn(x, Column(0, 0, 0, 0)) == x
  {}

  method LoadKey(rk: array<bv32>, key: AesKey)
    requires rk.Length >= |key| / 4
    modifies rk
    ensures Filled(rk, KeyColumns(key), |key| / 4)
  {
    hide Word, KeyColumns;
    for i := 0 to |key| / 4
      invariant Filled(rk, KeyColumns(key), i)
    {
      rk[i] := Word(Column(key[4 * i], key[4 * i + 1], key[4 * i + 2], key[4 * i + 3]));
    }
  }

  lemma {:induction false} FilledSchedule(key: AesKey, rk: array<bv32>, n: nat)
    requires n == 4 * NumRounds(key) + 4 && Filled(rk, KeyColumns(key), n)
    ensures Schedule(key) <= rk[..]
  {}
}
