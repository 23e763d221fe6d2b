/** The steps of the cipher and the words of the key schedule byte by byte, as sections 5.1 and 5.2 of FIPS 197
    state them. */
module AesBytes {
  import opened AesTables
  import opened AesCipher
  import opened AesBlock
  import opened AesKeys

  /** Byte k of a stored word, lowest first. */
  function ByteOf(w: bv32, k: nat): bv8
    requires k < 4
  {
    match k
    case 0 => (w & 0xFF) as bv8
    case 1 => ((w >> 8) & 0xFF) as bv8
    case 2 => ((w >> 16) & 0xFF) as bv8
    case _ => ((w >> 24) & 0xFF) as bv8
  }

  function Cell(x: Column, r: nat): bv8
    requires r < 4
  {
    match r case 0 => x.a case 1 => x.b case 2 => x.c case _ => x.d
  }

  lemma {:induction false} StoredCell(x: Column, k: nat)
    requires k < 4
    ensures ByteOf(Word(x), k) == Cell(x, k)
  {
    hide Word;
    WordBytes(x);
    assert Byte0(Word(x)) == (Word(x) & 0xFF) as bv8 && Byte1(Word(x)) == ((Word(x) >> 8) & 0xFF) as bv8;
    assert Byte2(Word(x)) == ((Word(x) >> 16) & 0xFF) as bv8 && Byte3(Word(x)) == ((Word(x) >> 24) & 0xFF) as bv8;
  }

  // ----- the key schedule

  /** The powers of x that go into the schedule. */
  function PowerOfX(j: int): bv8 {
    match j
    case 0 => 0x01 case 1 => 0x02 case 2 => 0x04 case 3 => 0x08 case 4 => 0x10
    case 5 => 0x20 case 6 => 0x40 case 7 => 0x80 case 8 => 0x1B case _ => 0x36
  }

  lemma {:induction false} RconTable(j: nat)
    requires j < 10
    ensures Rcon(j) == PowerOfX(j)
  {
    if j > 0 { RconTable(j - 1); }
  }

  lemma {:induction false} SumCell(x: Column, y: Column, k: nat)
    requires k < 4
    ensures Cell(XorColumn(x, y), k) == Xor(Cell(x, k), Cell(y, k))
  {
    hide Xor;
  }

  lemma {:induction false} RotatedCell(x: Column, k: nat)
    requires k < 4
    ensures Cell(SubColumn(RotWord(x)), k) == SBox(Cell(x, (k + 1) % 4))
    ensures Cell(SubColumn(x), k) == SBox(Cell(x, k))
  {
    hide SBox;
  }

  lemma {:induction false} AddendCell(previous: Column, nk: nat, n: nat, k: nat)
    requires 0 < nk <= n && k < 4
    ensures Cell(Addend(previous, nk, n), k)
            == if n % nk == 0 then Xor(SBox(Cell(previous, (k + 1) % 4)), if k == 0 then Rcon(n / nk - 1) else 0)
               else if nk > 6 && n % nk == 4 then SBox(Cell(previous, k))
               else Cell(previous, k)
  {
    hide SBox, Rcon, SubColumn, RotWord, XorColumn, Xor;
    RotatedCell(previous, k);
    if n % nk == 0 { SumCell(SubColumn(RotWord(previous)), Column(Rcon(n / nk - 1), 0, 0, 0), k); }
  }

  lemma {:induction false} ScheduleWord(key: AesKey, n: nat, k: nat)
    requires n < |Schedule(key)| && k < 4
    ensures ByteOf(Schedule(key)[n], k) == Cell(Expanded(KeyColumns(key), n), k)
  {
    hide Word, Expanded, ByteOf, Cell;
    StoredCell(Expanded(KeyColumns(key), n), k);
  }

  lemma {:induction false} FirstCell(key: AesKey, n: nat, k: nat)
    requires n < |key| / 4 && k < 4
    ensures Cell(Expanded(KeyColumns(key), n), k) == key[4 * n + k]
  {}

  /** Byte k of word n of the schedule of any key. The first nk words are the key. Every other word is the word nk
      places before added to the one before it, which is rotated by one byte, substituted and added to a power
      of x at multiples of nk, and substituted in the middle between them in keys of 256 bits. */
  lemma {:induction false} ScheduleBytes(key: AesKey, n: nat, k: nat)
    requires n < |Schedule(key)| && k < 4
    ensures var w, nk := Schedule(key), |key| / 4;
            ByteOf(w[n], k)
            == if n < nk then key[4 * n + k]
               else if n % nk == 0 then
                 Xor(ByteOf(w[n - nk], k),
                     Xor(SBox(ByteOf(w[n - 1], (k + 1) % 4)), if k == 0 then PowerOfX(n / nk - 1) else 0))
               else if nk == 8 && n % 8 == 4 then Xor(ByteOf(w[n - nk], k), SBox(ByteOf(w[n - 1], k)))
               else Xor(ByteOf(w[n - nk], k), ByteOf(w[n - 1], k))
  {
    hide ByteOf, Schedule, SBox, Addend, XorColumn, Rcon, Xor, PowerOfX, Cell;
    var c, nk := KeyColumns(key), |key| / 4;
    ScheduleWord(key, n, k);
    if n >= nk {
      var previous := Expanded(c, n - 1);
      ScheduleWord(key, n - nk, k);
      ScheduleWord(key, n - 1, k);
      ScheduleWord(key, n - 1, (k + 1) % 4);
      SumCell(Expanded(c, n - nk), Addend(previous, nk, n), k);
      AddendCell(previous, nk, n, k);
      if n % nk == 0 { RconTable(n / nk - 1); }
    } else {
      FirstCell(key, n, k);
    }
  }

  // ----- the steps

  lemma {:induction false} BlockCell(s: State, c: nat, r: nat)
    requires c < 4 && r < 4
    ensures BlockOf(s)[4 * c + r] == Cell(match c case 0 => s.c0 case 1 => s.c1 case 2 => s.c2 case _ => s.c3, r)
  {}

  /** Row r moves by r columns. */
  lemma {:induction false} ShiftedByte(s: State, c: nat, r: nat)
    requires c < 4 && r < 4
    ensures BlockOf(ShiftRows(s))[4 * c + r] == BlockOf(s)[4 * ((c + r) % 4) + r]
  {
    hide BlockOf;
    BlockCell(ShiftRows(s), c, r);
    BlockCell(s, (c + r) % 4, r);
  }

  lemma {:induction false} SubstitutedByte(s: State, c: nat, r: nat)
    requires c < 4 && r < 4
    ensures BlockOf(SubBytes(s))[4 * c + r] == SBox(BlockOf(s)[4 * c + r])
  {
    hide BlockOf, SBox;
    BlockCell(SubBytes(s), c, r);
    BlockCell(s, c, r);
  }

  lemma {:induction false} MixedCell(x: Column, r: nat)
    requires r < 4
    ensures Cell(MixColumn(x), r)
            == Xor4(Mul(Cell(x, r), 2), Mul(Cell(x, (r + 1) % 4), 3), Cell(x, (r + 2) % 4), Cell(x, (r + 3) % 4))
  {
    hide Mul, Xtime, Times3, Xor4;
    TimesIsMul(Cell(x, r));
    TimesIsMul(Cell(x, (r + 1) % 4));
  }

  /** A column is multiplied by the polynomial of section 5.1.3. */
  lemma {:induction false} MixedByte(s: State, c: nat, r: nat)
    requires c < 4 && r < 4
    ensures var b := BlockOf(s);
            BlockOf(MixColumns(s))[4 * c + r]
            == Xor4(Mul(b[4 * c + r], 2), Mul(b[4 * c + (r + 1) % 4], 3), b[4 * c + (r + 2) % 4], b[4 * c + (r + 3) % 4])
  {
    hide BlockOf, Mul, MixColumn, Cell, Xor4;
    BlockCell(MixColumns(s), c, r);
    MixedCell(match c case 0 => s.c0 case 1 => s.c1 case 2 => s.c2 case _ => s.c3, r);
    BlockCell(s, c, r);
    BlockCell(s, c, (r + 1) % 4);
    BlockCell(s, c, (r + 2) % 4);
    BlockCell(s, c, (r + 3) % 4);
  }

  lemma {:induction false} WordCell(w: bv32, r: nat)
    requires r < 4
    ensures Cell(ColumnOf(w), r) == ByteOf(w, r)
  {}

  lemma {:induction false} KeyedByte(rk: seq<bv32>, i: nat, s: State, c: nat, r: nat)
    requires 4 * i + 4 <= |rk| && c < 4 && r < 4
    ensures BlockOf(AddRoundKey(s, Key(rk, i)))[4 * c + r] == Xor(BlockOf(s)[4 * c + r], ByteOf(rk[4 * i + c], r))
  {
    hide BlockOf, Xor, XorColumn, ColumnOf, Cell, ByteOf;
    BlockCell(AddRoundKey(s, Key(rk, i)), c, r);
    BlockCell(s, c, r);
    WordCell(rk[4 * i + c], r);
    SumCell(match c case 0 => s.c0 case 1 => s.c1 case 2 => s.c2 case _ => s.c3, ColumnOf(rk[4 * i + c]), r);
  }
}
