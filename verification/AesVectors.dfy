/** The example vectors of appendix C of FIPS 197: every word of the three expanded keys, the states between the
    rounds, and the three ciphertexts. */
module AesVectors {
  import opened AesTables
  import opened AesCipher
  import opened AesBlock
  import opened AesKeys

  const PLAINTEXT: Block := [
    0x00, 0x11, 0x22, 0x33, 0x44, 0x55, 0x66, 0x77, 0x88, 0x99, 0xAA, 0xBB, 0xCC, 0xDD, 0xEE, 0xFF]

  /** The keys of the examples are 00, 01, 02 and so on. */
  predicate Counts(key: AesKey) {
    forall i :: 0 <= i < |key| ==> key[i] == i as bv8
  }

  /** A column or word in the notation of the standard, first row first. */
  function Col(w: bv32): Column {
    Column((w >> 24) as bv8, ((w >> 16) & 0xFF) as bv8, ((w >> 8) & 0xFF) as bv8, (w & 0xFF) as bv8)
  }

  function St(a: bv32, b: bv32, c: bv32, d: bv32): State { State(Col(a), Col(b), Col(c), Col(d)) }

  lemma {:induction false} ColXor(a: bv32, b: bv32)
    ensures XorColumn(Col(a), Col(b)) == Col(XorWord(a, b))
  {}

  // ----- the expanded keys

  predicate WordIs(key: AesKey, n: nat, w: bv32) { Expanded(KeyColumns(key), n) == Col(w) }

  /** Words n and n + 1 of the expanded key. */
  predicate Words(key: AesKey, n: nat, a: bv32, b: bv32) { WordIs(key, n, a) && WordIs(key, n + 1, b) }

  lemma {:induction false} FirstWord(key: AesKey, i: nat, w: bv32)
    requires i < |key| / 4 && Counts(key)
    requires Col(w) == Column((4 * i) as bv8, (4 * i + 1) as bv8, (4 * i + 2) as bv8, (4 * i + 3) as bv8)
    ensures WordIs(key, i, w)
  {
    hide Col;
  }

  lemma {:induction false} NextWord(key: AesKey, n: nat)
    requires |key| / 4 <= n
    ensures var k, nk := KeyColumns(key), |key| / 4;
            && Expanded(k, n) == XorColumn(Expanded(k, n - nk), Addend(Expanded(k, n - 1), nk, n))
            && (n % nk != 0 && (nk > 6 ==> n % nk != 4) ==>
                  Expanded(k, n) == XorColumn(Expanded(k, n - nk), Expanded(k, n - 1)))
  {
    hide XorColumn, KeyColumns;
  }

  lemma {:induction false} PlainWord(key: AesKey, n: nat, a: bv32, previous: bv32)
    requires var nk := |key| / 4;
             && nk <= n && WordIs(key, n - nk, a) && WordIs(key, n - 1, previous)
             && n % nk != 0 && (nk > 6 ==> n % nk != 4)
    ensures WordIs(key, n, XorWord(a, previous))
  {
    hide Col, XorColumn, Expanded, KeyColumns, XorWord, Addend;
    NextWord(key, n);
    ColXor(a, previous);
  }

  /** Two words of the plain kind. */
  lemma {:induction false} PlainWords(key: AesKey, n: nat, a: bv32, b: bv32, previous: bv32)
    requires var nk := |key| / 4;
             && nk <= n && Words(key, n - nk, a, b) && WordIs(key, n - 1, previous) && n % 2 == 0
             && n % nk != 0 && (nk > 6 ==> n % nk != 4)
    ensures Words(key, n, XorWord(a, previous), XorWord(b, XorWord(a, previous)))
  {
    hide WordIs, XorWord;
    EvenPlace(|key| / 4, n);
    PlainWord(key, n, a, previous);
    PlainWord(key, n + 1, b, XorWord(a, previous));
  }

  lemma {:induction false} EvenPlace(nk: nat, n: nat)
    requires IsKeyLength(nk) && n % 2 == 0
    ensures (n + 1) % nk != 0 && (nk == 8 ==> (n + 1) % nk != 4)
  {}

  /** Two words of which the first is at a multiple of the key length, the j-th such place. */
  lemma {:induction false} RotatedWords(key: AesKey, j: nat, a: bv32, b: bv32, previous: bv32, w: bv32)
    requires var nk := |key| / 4;
             && Words(key, nk * j, a, b) && WordIs(key, nk * j + nk - 1, previous)
             && Col(w) == XorColumn(Col(a), XorColumn(SubColumn(RotWord(Col(previous))), Column(Rcon(j), 0, 0, 0)))
    ensures Words(key, |key| / 4 * (j + 1), w, XorWord(b, w))
  {
    hide Col, XorColumn, Expanded, KeyColumns, SubColumn, RotWord, Rcon, XorWord;
    var nk := |key| / 4;
    MultipleOf(nk, j, 0);
    MultipleOf(nk, j, 1);
    NextWord(key, nk * j + nk);
    PlainWord(key, nk * j + nk + 1, b, w);
  }

  /** Two words of which the first is four places behind a multiple, in a key of 256 bits. */
  lemma {:induction false} SubstitutedWords(key: AesKey, n: nat, a: bv32, b: bv32, previous: bv32, w: bv32)
    requires |key| == 32 && 8 <= n && n % 8 == 4
    requires Words(key, n - 8, a, b) && WordIs(key, n - 1, previous)
    requires Col(w) == XorColumn(Col(a), SubColumn(Col(previous)))
    ensures Words(key, n, w, XorWord(b, w))
  {
    hide Col, XorColumn, Expanded, KeyColumns, SubColumn, XorWord;
    NextWord(key, n);
    PlainWord(key, n + 1, b, w);
  }

  /** Round key i as the cipher uses it. */
  lemma {:induction false} RoundKey(key: AesKey, i: nat, a: bv32, b: bv32, c: bv32, d: bv32)
    requires i <= NumRounds(key) && Words(key, 4 * i, a, b) && Words(key, 4 * i + 2, c, d)
    ensures Key(Schedule(key), i) == St(a, b, c, d)
  {
    hide Word, ColumnOf, Expanded, Col;
    WordBytes(Col(a));
    WordBytes(Col(b));
    WordBytes(Col(c));
    WordBytes(Col(d));
  }

  lemma {:induction false} Words128(key: AesKey)
    requires |key| == 16 && Counts(key)
    ensures Words(key, 0, 0x00010203, 0x04050607)
    ensures Words(key, 2, 0x08090A0B, 0x0C0D0E0F)
  {
    hide WordIs, Counts;
    FirstWord(key, 0, 0x00010203);
    FirstWord(key, 1, 0x04050607);
    FirstWord(key, 2, 0x08090A0B);
    FirstWord(key, 3, 0x0C0D0E0F);
  }

  lemma {:induction false} Words128From4(key: AesKey)
    requires |key| == 16 && Counts(key)
    ensures Words(key, 4, 0xD6AA74FD, 0xD2AF72FA)
    ensures Words(key, 6, 0xDAA678F1, 0xD6AB76FE)
    ensures Words(key, 8, 0xB692CF0B, 0x643DBDF1)
    ensures Words(key, 10, 0xBE9BC500, 0x6830B3FE)
    ensures Words(key, 12, 0xB6FF744E, 0xD2C2C9BF)
    ensures Words(key, 14, 0x6C590CBF, 0x0469BF41)
    ensures Words(key, 16, 0x47F7F7BC, 0x95353E03)
    ensures Words(key, 18, 0xF96C32BC, 0xFD058DFD)
  {
    hide WordIs, Counts;
    Words128(key);
    RotatedWords(key, 0, 0x00010203, 0x04050607, 0x0C0D0E0F, 0xD6AA74FD);
    PlainWords(key, 6, 0x08090A0B, 0x0C0D0E0F, 0xD2AF72FA);
    RotatedWords(key, 1, 0xD6AA74FD, 0xD2AF72FA, 0xD6AB76FE, 0xB692CF0B);
    PlainWords(key, 10, 0xDAA678F1, 0xD6AB76FE, 0x643DBDF1);
    RotatedWords(key, 2, 0xB692CF0B, 0x643DBDF1, 0x6830B3FE, 0xB6FF744E);
    PlainWords(key, 14, 0xBE9BC500, 0x6830B3FE, 0xD2C2C9BF);
    RotatedWords(key, 3, 0xB6FF744E, 0xD2C2C9BF, 0x0469BF41, 0x47F7F7BC);
    PlainWords(key, 18, 0x6C590CBF, 0x0469BF41, 0x95353E03);
  }

  lemma {:induction false} Words128From20(key: AesKey)
    requires |key| == 16 && Counts(key)
    ensures Words(key, 20, 0x3CAAA3E8, 0xA99F9DEB)
    ensures Words(key, 22, 0x50F3AF57, 0xADF622AA)
    ensures Words(key, 24, 0x5E390F7D, 0xF7A69296)
    ensures Words(key, 26, 0xA7553DC1, 0x0AA31F6B)
    ensures Words(key, 28, 0x14F9701A, 0xE35FE28C)
    ensures Words(key, 30, 0x440ADF4D, 0x4EA9C026)
    ensures Words(key, 32, 0x47438735, 0xA41C65B9)
    ensures Words(key, 34, 0xE016BAF4, 0xAEBF7AD2)
  {
    hide WordIs, Counts;
    Words128From4(key);
    RotatedWords(key, 4, 0x47F7F7BC, 0x95353E03, 0xFD058DFD, 0x3CAAA3E8);
    PlainWords(key, 22, 0xF96C32BC, 0xFD058DFD, 0xA99F9DEB);
    RotatedWords(key, 5, 0x3CAAA3E8, 0xA99F9DEB, 0xADF622AA, 0x5E390F7D);
    PlainWords(key, 26, 0x50F3AF57, 0xADF622AA, 0xF7A69296);
    RotatedWords(key, 6, 0x5E390F7D, 0xF7A69296, 0x0AA31F6B, 0x14F9701A);
    PlainWords(key, 30, 0xA7553DC1, 0x0AA31F6B, 0xE35FE28C);
    RotatedWords(key, 7, 0x14F9701A, 0xE35FE28C, 0x4EA9C026, 0x47438735);
    PlainWords(key, 34, 0x440ADF4D, 0x4EA9C026, 0xA41C65B9);
  }

  lemma {:induction false} Words128From36(key: AesKey)
    requires |key| == 16 && Counts(key)
    ensures Words(key, 36, 0x549932D1, 0xF0855768)
    ensures Words(key, 38, 0x1093ED9C, 0xBE2C974E)
    ensures Words(key, 40, 0x13111D7F, 0xE3944A17)
    ensures Words(key, 42, 0xF307A78B, 0x4D2B30C5)
  {
    hide WordIs, Counts;
    Words128From20(key);
    RotatedWords(key, 8, 0x47438735, 0xA41C65B9, 0xAEBF7AD2, 0x549932D1);
    PlainWords(key, 38, 0xE016BAF4, 0xAEBF7AD2, 0xF0855768);
    RotatedWords(key, 9, 0x549932D1, 0xF0855768, 0xBE2C974E, 0x13111D7F);
    PlainWords(key, 42, 0x1093ED9C, 0xBE2C974E, 0xE3944A17);
  }

  lemma {:induction false} Words192(key: AesKey)
    requires |key| == 24 && Counts(key)
    ensures Words(key, 0, 0x00010203, 0x04050607)
    ensures Words(key, 2, 0x08090A0B, 0x0C0D0E0F)
    ensures Words(key, 4, 0x10111213, 0x14151617)
  {
    hide WordIs, Counts;
    FirstWord(key, 0, 0x00010203);
    FirstWord(key, 1, 0x04050607);
    FirstWord(key, 2, 0x08090A0B);
    FirstWord(key, 3, 0x0C0D0E0F);
    FirstWord(key, 4, 0x10111213);
    FirstWord(key, 5, 0x14151617);
  }

  lemma {:induction false} Words192From6(key: AesKey)
    requires |key| == 24 && Counts(key)
    ensures Words(key, 6, 0x5846F2F9, 0x5C43F4FE)
    ensures Words(key, 8, 0x544AFEF5, 0x5847F0FA)
    ensures Words(key, 10, 0x4856E2E9, 0x5C43F4FE)
    ensures Words(key, 12, 0x40F949B3, 0x1CBABD4D)
    ensures Words(key, 14, 0x48F043B8, 0x10B7B342)
    ensures Words(key, 16, 0x58E151AB, 0x04A2A555)
    ensures Words(key, 18, 0x7EFFB541, 0x6245080C)
    ensures Words(key, 20, 0x2AB54BB4, 0x3A02F8F6)
  {
    hide WordIs, Counts;
    Words192(key);
    RotatedWords(key, 0, 0x00010203, 0x04050607, 0x14151617, 0x5846F2F9);
    PlainWords(key, 8, 0x08090A0B, 0x0C0D0E0F, 0x5C43F4FE);
    PlainWords(key, 10, 0x10111213, 0x14151617, 0x5847F0FA);
    RotatedWords(key, 1, 0x5846F2F9, 0x5C43F4FE, 0x5C43F4FE, 0x40F949B3);
    PlainWords(key, 14, 0x544AFEF5, 0x5847F0FA, 0x1CBABD4D);
    PlainWords(key, 16, 0x4856E2E9, 0x5C43F4FE, 0x10B7B342);
    RotatedWords(key, 2, 0x40F949B3, 0x1CBABD4D, 0x04A2A555, 0x7EFFB541);
    PlainWords(key, 20, 0x48F043B8, 0x10B7B342, 0x6245080C);
  }

  lemma {:induction false} Words192From22(key: AesKey)
    requires |key| == 24 && Counts(key)
    ensures Words(key, 22, 0x62E3A95D, 0x66410C08)
    ensures Words(key, 24, 0xF5018572, 0x97448D7E)
    ensures Words(key, 26, 0xBDF1C6CA, 0x87F33E3C)
    ensures Words(key, 28, 0xE5109761, 0x83519B69)
    ensures Words(key, 30, 0x34157C9E, 0xA351F1E0)
    ensures Words(key, 32, 0x1EA0372A, 0x99530916)
    ensures Words(key, 34, 0x7C439E77, 0xFF12051E)
    ensures Words(key, 36, 0xDD7E0E88, 0x7E2FFF68)
  {
    hide WordIs, Counts;
    Words192From6(key);
    PlainWords(key, 22, 0x58E151AB, 0x04A2A555, 0x3A02F8F6);
    RotatedWords(key, 3, 0x7EFFB541, 0x6245080C, 0x66410C08, 0xF5018572);
    PlainWords(key, 26, 0x2AB54BB4, 0x3A02F8F6, 0x97448D7E);
    PlainWords(key, 28, 0x62E3A95D, 0x66410C08, 0x87F33E3C);
    RotatedWords(key, 4, 0xF5018572, 0x97448D7E, 0x83519B69, 0x34157C9E);
    PlainWords(key, 32, 0xBDF1C6CA, 0x87F33E3C, 0xA351F1E0);
    PlainWords(key, 34, 0xE5109761, 0x83519B69, 0x99530916);
    RotatedWords(key, 5, 0x34157C9E, 0xA351F1E0, 0xFF12051E, 0xDD7E0E88);
  }

  lemma {:induction false} Words192From38(key: AesKey)
    requires |key| == 24 && Counts(key)
    ensures Words(key, 38, 0x608FC842, 0xF9DCC154)
    ensures Words(key, 40, 0x859F5F23, 0x7A8D5A3D)
    ensures Words(key, 42, 0xC0C02952, 0xBEEFD63A)
    ensures Words(key, 44, 0xDE601E78, 0x27BCDF2C)
    ensures Words(key, 46, 0xA223800F, 0xD8AEDA32)
    ensures Words(key, 48, 0xA4970A33, 0x1A78DC09)
    ensures Words(key, 50, 0xC418C271, 0xE3A41D5D)
  {
    hide WordIs, Counts;
    Words192From22(key);
    PlainWords(key, 38, 0x1EA0372A, 0x99530916, 0x7E2FFF68);
    PlainWords(key, 40, 0x7C439E77, 0xFF12051E, 0xF9DCC154);
    RotatedWords(key, 6, 0xDD7E0E88, 0x7E2FFF68, 0x7A8D5A3D, 0xC0C02952);
    PlainWords(key, 44, 0x608FC842, 0xF9DCC154, 0xBEEFD63A);
    PlainWords(key, 46, 0x859F5F23, 0x7A8D5A3D, 0x27BCDF2C);
    RotatedWords(key, 7, 0xC0C02952, 0xBEEFD63A, 0xD8AEDA32, 0xA4970A33);
    PlainWords(key, 50, 0xDE601E78, 0x27BCDF2C, 0x1A78DC09);
  }

  lemma {:induction false} Words256(key: AesKey)
    requires |key| == 32 && Counts(key)
    ensures Words(key, 0, 0x00010203, 0x04050607)
    ensures Words(key, 2, 0x08090A0B, 0x0C0D0E0F)
    ensures Words(key, 4, 0x10111213, 0x14151617)
    ensures Words(key, 6, 0x18191A1B, 0x1C1D1E1F)
  {
    hide WordIs, Counts;
    FirstWord(key, 0, 0x00010203);
    FirstWord(key, 1, 0x04050607);
    FirstWord(key, 2, 0x08090A0B);
    FirstWord(key, 3, 0x0C0D0E0F);
    FirstWord(key, 4, 0x10111213);
    FirstWord(key, 5, 0x14151617);
    FirstWord(key, 6, 0x18191A1B);
    FirstWord(key, 7, 0x1C1D1E1F);
  }

  lemma {:induction false} Words256From8(key: AesKey)
    requires |key| == 32 && Counts(key)
    ensures Words(key, 8, 0xA573C29F, 0xA176C498)
    ensures Words(key, 10, 0xA97FCE93, 0xA572C09C)
    ensures Words(key, 12, 0x1651A8CD, 0x0244BEDA)
    ensures Words(key, 14, 0x1A5DA4C1, 0x0640BADE)
    ensures Words(key, 16, 0xAE87DFF0, 0x0FF11B68)
    ensures Words(key, 18, 0xA68ED5FB, 0x03FC1567)
    ensures Words(key, 20, 0x6DE1F148, 0x6FA54F92)
    ensures Words(key, 22, 0x75F8EB53, 0x73B8518D)
  {
    hide WordIs, Counts;
    Words256(key);
    RotatedWords(key, 0, 0x00010203, 0x04050607, 0x1C1D1E1F, 0xA573C29F);
    PlainWords(key, 10, 0x08090A0B, 0x0C0D0E0F, 0xA176C498);
    SubstitutedWords(key, 12, 0x10111213, 0x14151617, 0xA572C09C, 0x1651A8CD);
    PlainWords(key, 14, 0x18191A1B, 0x1C1D1E1F, 0x0244BEDA);
    RotatedWords(key, 1, 0xA573C29F, 0xA176C498, 0x0640BADE, 0xAE87DFF0);
    PlainWords(key, 18, 0xA97FCE93, 0xA572C09C, 0x0FF11B68);
    SubstitutedWords(key, 20, 0x1651A8CD, 0x0244BEDA, 0x03FC1567, 0x6DE1F148);
    PlainWords(key, 22, 0x1A5DA4C1, 0x0640BADE, 0x6FA54F92);
  }

  lemma {:induction false} Words256From24(key: AesKey)
    requires |key| == 32 && Counts(key)
    ensures Words(key, 24, 0xC656827F, 0xC9A79917)
    ensures Words(key, 26, 0x6F294CEC, 0x6CD5598B)
    ensures Words(key, 28, 0x3DE23A75, 0x524775E7)
    ensures Words(key, 30, 0x27BF9EB4, 0x5407CF39)
    ensures Words(key, 32, 0x0BDC905F, 0xC27B0948)
    ensures Words(key, 34, 0xAD5245A4, 0xC1871C2F)
    ensures Words(key, 36, 0x45F5A660, 0x17B2D387)
    ensures Words(key, 38, 0x300D4D33, 0x640A820A)
  {
    hide WordIs, Counts;
    Words256From8(key);
    RotatedWords(key, 2, 0xAE87DFF0, 0x0FF11B68, 0x73B8518D, 0xC656827F);
    PlainWords(key, 26, 0xA68ED5FB, 0x03FC1567, 0xC9A79917);
    SubstitutedWords(key, 28, 0x6DE1F148, 0x6FA54F92, 0x6CD5598B, 0x3DE23A75);
    PlainWords(key, 30, 0x75F8EB53, 0x73B8518D, 0x524775E7);
    RotatedWords(key, 3, 0xC656827F, 0xC9A79917, 0x5407CF39, 0x0BDC905F);
    PlainWords(key, 34, 0x6F294CEC, 0x6CD5598B, 0xC27B0948);
    SubstitutedWords(key, 36, 0x3DE23A75, 0x524775E7, 0xC1871C2F, 0x45F5A660);
    PlainWords(key, 38, 0x27BF9EB4, 0x5407CF39, 0x17B2D387);
  }

  lemma {:induction false} Words256From40(key: AesKey)
    requires |key| == 32 && Counts(key)
    ensures Words(key, 40, 0x7CCFF71C, 0xBEB4FE54)
    ensures Words(key, 42, 0x13E6BBF0, 0xD261A7DF)
    ensures Words(key, 44, 0xF01AFAFE, 0xE7A82979)
    ensures Words(key, 46, 0xD7A5644A, 0xB3AFE640)
    ensures Words(key, 48, 0x2541FE71, 0x9BF50025)
    ensures Words(key, 50, 0x8813BBD5, 0x5A721C0A)
    ensures Words(key, 52, 0x4E5A6699, 0xA9F24FE0)
    ensures Words(key, 54, 0x7E572BAA, 0xCDF8CDEA)
  {
    hide WordIs, Counts;
    Words256From24(key);
    RotatedWords(key, 4, 0x0BDC905F, 0xC27B0948, 0x640A820A, 0x7CCFF71C);
    PlainWords(key, 42, 0xAD5245A4, 0xC1871C2F, 0xBEB4FE54);
    SubstitutedWords(key, 44, 0x45F5A660, 0x17B2D387, 0xD261A7DF, 0xF01AFAFE);
    PlainWords(key, 46, 0x300D4D33, 0x640A820A, 0xE7A82979);
    RotatedWords(key, 5, 0x7CCFF71C, 0xBEB4FE54, 0xB3AFE640, 0x2541FE71);
    PlainWords(key, 50, 0x13E6BBF0, 0xD261A7DF, 0x9BF50025);
    SubstitutedWords(key, 52, 0xF01AFAFE, 0xE7A82979, 0x5A721C0A, 0x4E5A6699);
    PlainWords(key, 54, 0xD7A5644A, 0xB3AFE640, 0xA9F24FE0);
  }

  lemma {:induction false} Words256From56(key: AesKey)
    requires |key| == 32 && Counts(key)
    ensures Words(key, 56, 0x24FC79CC, 0xBF0979E9)
    ensures Words(key, 58, 0x371AC23C, 0x6D68DE36)
  {
    hide WordIs, Counts;
    Words256From40(key);
    RotatedWords(key, 6, 0x2541FE71, 0x9BF50025, 0xCDF8CDEA, 0x24FC79CC);
    PlainWords(key, 58, 0x8813BBD5, 0x5A721C0A, 0xBF0979E9);
  }

  // ----- the rounds

  /** The state after i rounds. */
  predicate After(key: AesKey, i: nat, s: State)
    requires i < NumRounds(key)
  {
    Rounds(Schedule(key), StateOf(PLAINTEXT), i) == s
  }

  lemma {:induction false} NextRound(key: AesKey, i: nat, s: State, a: bv32, b: bv32, c: bv32, d: bv32)
    requires 0 < i < NumRounds(key) && After(key, i - 1, s) && Words(key, 4 * i, a, b) && Words(key, 4 * i + 2, c, d)
    ensures After(key, i, AddRoundKey(MixColumns(ShiftRows(SubBytes(s))), St(a, b, c, d)))
  {
    hide Schedule, Words, Key, AddRoundKey, MixColumns, ShiftRows, SubBytes, StateOf, St;
    RoundKey(key, i, a, b, c, d);
  }

  lemma {:induction false} Start128(key: AesKey)
    requires |key| == 16 && Counts(key)
    ensures After(key, 0, St(0x00102030, 0x40506070, 0x8090A0B0, 0xC0D0E0F0))
  {
    hide Counts, WordIs, Schedule;
    Words128(key);
    RoundKey(key, 0, 0x00010203, 0x04050607, 0x08090A0B, 0x0C0D0E0F);
  }

  lemma {:induction false} Rounds128To3(key: AesKey)
    requires |key| == 16 && Counts(key)
    ensures After(key, 3, St(0xFA636A28, 0x25B339C9, 0x40668A31, 0x57244D17))
  {
    hide Counts, WordIs, Schedule, Rounds;
    Start128(key);
    Words128From4(key);
    NextRound(key, 1, St(0x00102030, 0x40506070, 0x8090A0B0, 0xC0D0E0F0),
              0xD6AA74FD, 0xD2AF72FA, 0xDAA678F1, 0xD6AB76FE);
    NextRound(key, 2, St(0x89D810E8, 0x855ACE68, 0x2D1843D8, 0xCB128FE4),
              0xB692CF0B, 0x643DBDF1, 0xBE9BC500, 0x6830B3FE);
    NextRound(key, 3, St(0x4915598F, 0x55E5D7A0, 0xDACA94FA, 0x1F0A63F7),
              0xB6FF744E, 0xD2C2C9BF, 0x6C590CBF, 0x0469BF41);
  }

  lemma {:induction false} Rounds128To6(key: AesKey)
    requires |key| == 16 && Counts(key)
    ensures After(key, 6, St(0xC62FE109, 0xF75EEDC3, 0xCC79395D, 0x84F9CF5D))
  {
    hide Counts, WordIs, Schedule, Rounds;
    Rounds128To3(key);
    Words128From4(key);
    Words128From20(key);
    NextRound(key, 4, St(0xFA636A28, 0x25B339C9, 0x40668A31, 0x57244D17),
              0x47F7F7BC, 0x95353E03, 0xF96C32BC, 0xFD058DFD);
    NextRound(key, 5, St(0x24724023, 0x6966B3FA, 0x6ED27532, 0x88425B6C),
              0x3CAAA3E8, 0xA99F9DEB, 0x50F3AF57, 0xADF622AA);
    NextRound(key, 6, St(0xC81677BC, 0x9B7AC93B, 0x25027992, 0xB0261996),
              0x5E390F7D, 0xF7A69296, 0xA7553DC1, 0x0AA31F6B);
  }

  lemma {:induction false} Rounds128To9(key: AesKey)
    requires |key| == 16 && Counts(key)
    ensures After(key, 9, St(0xBD6E7C3D, 0xF2B5779E, 0x0B61216E, 0x8B10B689))
  {
    hide Counts, WordIs, Schedule, Rounds;
    Rounds128To6(key);
    Words128From20(key);
    Words128From36(key);
    NextRound(key, 7, St(0xC62FE109, 0xF75EEDC3, 0xCC79395D, 0x84F9CF5D),
              0x14F9701A, 0xE35FE28C, 0x440ADF4D, 0x4EA9C026);
    NextRound(key, 8, St(0xD1876C0F, 0x79C4300A, 0xB45594AD, 0xD66FF41F),
              0x47438735, 0xA41C65B9, 0xE016BAF4, 0xAEBF7AD2);
    NextRound(key, 9, St(0xFDE3BAD2, 0x05E5D0D7, 0x3547964E, 0xF1FE37F1),
              0x549932D1, 0xF0855768, 0x1093ED9C, 0xBE2C974E);
  }

  lemma {:induction false} Last128(key: AesKey)
    requires |key| == 16 && Counts(key)
    ensures Cipher(Schedule(key), 10, StateOf(PLAINTEXT)) == St(0x69C4E0D8, 0x6A7B0430, 0xD8CDB780, 0x70B4C55A)
  {
    hide Counts, WordIs, Schedule, Rounds, Key;
    Rounds128To9(key);
    Words128From36(key);
    RoundKey(key, 10, 0x13111D7F, 0xE3944A17, 0xF307A78B, 0x4D2B30C5);
  }

  /** Section C.1: a key of 16 bytes. */
  lemma {:induction false} Vector128(key: AesKey)
    requires |key| == 16 && forall i :: 0 <= i < |key| ==> key[i] == i as bv8
    ensures AesEncrypt(key, PLAINTEXT)
            == [0x69, 0xC4, 0xE0, 0xD8, 0x6A, 0x7B, 0x04, 0x30, 0xD8, 0xCD, 0xB7, 0x80, 0x70, 0xB4, 0xC5, 0x5A]
  {
    hide Schedule, Cipher, StateOf;
    Last128(key);
  }

  lemma {:induction false} Start192(key: AesKey)
    requires |key| == 24 && Counts(key)
    ensures After(key, 0, St(0x00102030, 0x40506070, 0x8090A0B0, 0xC0D0E0F0))
  {
    hide Counts, WordIs, Schedule;
    Words192(key);
    RoundKey(key, 0, 0x00010203, 0x04050607, 0x08090A0B, 0x0C0D0E0F);
  }

  lemma {:induction false} Rounds192To3(key: AesKey)
    requires |key| == 24 && Counts(key)
    ensures After(key, 3, St(0xF75C7778, 0xA327C8ED, 0x8CFEBFC1, 0xA6C37F53))
  {
    hide Counts, WordIs, Schedule, Rounds;
    Start192(key);
    Words192(key);
    Words192From6(key);
    NextRound(key, 1, St(0x00102030, 0x40506070, 0x8090A0B0, 0xC0D0E0F0),
              0x10111213, 0x14151617, 0x5846F2F9, 0x5C43F4FE);
    NextRound(key, 2, St(0x4F637606, 0x43E0AA85, 0xAFF8C9D0, 0x41FA0DE4),
              0x544AFEF5, 0x5847F0FA, 0x4856E2E9, 0x5C43F4FE);
    NextRound(key, 3, St(0xCB02818C, 0x17D2AF9C, 0x62AA6442, 0x8BB25FD7),
              0x40F949B3, 0x1CBABD4D, 0x48F043B8, 0x10B7B342);
  }

  lemma {:induction false} Rounds192To6(key: AesKey)
    requires |key| == 24 && Counts(key)
    ensures After(key, 6, St(0x671EF1FD, 0x4E2A1E03, 0xDFDCB1EF, 0x3D789B30))
  {
    hide Counts, WordIs, Schedule, Rounds;
    Rounds192To3(key);
    Words192From6(key);
    Words192From22(key);
    NextRound(key, 4, St(0xF75C7778, 0xA327C8ED, 0x8CFEBFC1, 0xA6C37F53),
              0x58E151AB, 0x04A2A555, 0x7EFFB541, 0x6245080C);
    NextRound(key, 5, St(0x22FFC916, 0xA8147441, 0x6496F19C, 0x64AE2532),
              0x2AB54BB4, 0x3A02F8F6, 0x62E3A95D, 0x66410C08);
    NextRound(key, 6, St(0x80121E07, 0x76FD1D8A, 0x8D8C31BC, 0x965D1FEE),
              0xF5018572, 0x97448D7E, 0xBDF1C6CA, 0x87F33E3C);
  }

  lemma {:induction false} Rounds192To9(key: AesKey)
    requires |key| == 24 && Counts(key)
    ensures After(key, 9, St(0xA906B254, 0x968AF4E9, 0xB4BDB2D2, 0xF0C44336))
  {
    hide Counts, WordIs, Schedule, Rounds;
    Rounds192To6(key);
    Words192From22(key);
    Words192From38(key);
    NextRound(key, 7, St(0x671EF1FD, 0x4E2A1E03, 0xDFDCB1EF, 0x3D789B30),
              0xE5109761, 0x83519B69, 0x34157C9E, 0xA351F1E0);
    NextRound(key, 8, St(0x0C0370D0, 0x0C01E622, 0x166B8ACC, 0xD6DB3A2C),
              0x1EA0372A, 0x99530916, 0x7C439E77, 0xFF12051E);
    NextRound(key, 9, St(0x7255DAD3, 0x0FB80310, 0xE00D6C6B, 0x40D0527C),
              0xDD7E0E88, 0x7E2FFF68, 0x608FC842, 0xF9DCC154);
  }

  lemma {:induction false} Rounds192To11(key: AesKey)
    requires |key| == 24 && Counts(key)
    ensures After(key, 11, St(0xAFB73EEB, 0x1CD1B851, 0x62280F27, 0xFB20D585))
  {
    hide Counts, WordIs, Schedule, Rounds;
    Rounds192To9(key);
    Words192From38(key);
    NextRound(key, 10, St(0xA906B254, 0x968AF4E9, 0xB4BDB2D2, 0xF0C44336),
              0x859F5F23, 0x7A8D5A3D, 0xC0C02952, 0xBEEFD63A);
    NextRound(key, 11, St(0x88EC930E, 0xF5E7E4B6, 0xCC32F4C9, 0x06D29414),
              0xDE601E78, 0x27BCDF2C, 0xA223800F, 0xD8AEDA32);
  }

  lemma {:induction false} Last192(key: AesKey)
    requires |key| == 24 && Counts(key)
    ensures Cipher(Schedule(key), 12, StateOf(PLAINTEXT)) == St(0xDDA97CA4, 0x864CDFE0, 0x6EAF70A0, 0xEC0D7191)
  {
    hide Counts, WordIs, Schedule, Rounds, Key;
    Rounds192To11(key);
    Words192From38(key);
    RoundKey(key, 12, 0xA4970A33, 0x1A78DC09, 0xC418C271, 0xE3A41D5D);
  }

  /** Section C.2: a key of 24 bytes. */
  lemma {:induction false} Vector192(key: AesKey)
    requires |key| == 24 && forall i :: 0 <= i < |key| ==> key[i] == i as bv8
    ensures AesEncrypt(key, PLAINTEXT)
            == [0xDD, 0xA9, 0x7C, 0xA4, 0x86, 0x4C, 0xDF, 0xE0, 0x6E, 0xAF, 0x70, 0xA0, 0xEC, 0x0D, 0x71, 0x91]
  {
    hide Schedule, Cipher, StateOf;
    Last192(key);
  }

  lemma {:induction false} Start256(key: AesKey)
    requires |key| == 32 && Counts(key)
    ensures After(key, 0, St(0x00102030, 0x40506070, 0x8090A0B0, 0xC0D0E0F0))
  {
    hide Counts, WordIs, Schedule;
    Words256(key);
    RoundKey(key, 0, 0x00010203, 0x04050607, 0x08090A0B, 0x0C0D0E0F);
  }

  lemma {:induction false} Rounds256To3(key: AesKey)
    requires |key| == 32 && Counts(key)
    ensures After(key, 3, St(0x975C66C1, 0xCB9F3FA8, 0xA93A28DF, 0x8EE10F63))
  {
    hide Counts, WordIs, Schedule, Rounds;
    Start256(key);
    Words256(key);
    Words256From8(key);
    NextRound(key, 1, St(0x00102030, 0x40506070, 0x8090A0B0, 0xC0D0E0F0),
              0x10111213, 0x14151617, 0x18191A1B, 0x1C1D1E1F);
    NextRound(key, 2, St(0x4F637606, 0x43E0AA85, 0xEFA72132, 0x01A4E705),
              0xA573C29F, 0xA176C498, 0xA97FCE93, 0xA572C09C);
    NextRound(key, 3, St(0x1859FBC2, 0x8A1C00A0, 0x78ED8AAD, 0xC42F6109),
              0x1651A8CD, 0x0244BEDA, 0x1A5DA4C1, 0x0640BADE);
  }

  lemma {:induction false} Rounds256To6(key: AesKey)
    requires |key| == 32 && Counts(key)
    ensures After(key, 6, St(0x7F074143, 0xCB4E243E, 0xC10C815D, 0x8375D54C))
  {
    hide Counts, WordIs, Schedule, Rounds;
    Rounds256To3(key);
    Words256From8(key);
    Words256From24(key);
    NextRound(key, 4, St(0x975C66C1, 0xCB9F3FA8, 0xA93A28DF, 0x8EE10F63),
              0xAE87DFF0, 0x0FF11B68, 0xA68ED5FB, 0x03FC1567);
    NextRound(key, 5, St(0x1C05F271, 0xA417E04F, 0xF921C5C1, 0x04701554),
              0x6DE1F148, 0x6FA54F92, 0x75F8EB53, 0x73B8518D);
    NextRound(key, 6, St(0xC357AAE1, 0x1B45B7B0, 0xA2C7BD28, 0xA8DC99FA),
              0xC656827F, 0xC9A79917, 0x6F294CEC, 0x6CD5598B);
  }

  lemma {:induction false} Rounds256To9(key: AesKey)
    requires |key| == 32 && Counts(key)
    ensures After(key, 9, St(0x4A824851, 0xC57E7E47, 0x643DE50C, 0x2AF3E8C9))
  {
    hide Counts, WordIs, Schedule, Rounds;
    Rounds256To6(key);
    Words256From24(key);
    NextRound(key, 7, St(0x7F074143, 0xCB4E243E, 0xC10C815D, 0x8375D54C),
              0x3DE23A75, 0x524775E7, 0x27BF9EB4, 0x5407CF39);
    NextRound(key, 8, St(0xD653A469, 0x6CA0BC0F, 0x5ACAAB5D, 0xB96C5E7D),
              0x0BDC905F, 0xC27B0948, 0xAD5245A4, 0xC1871C2F);
    NextRound(key, 9, St(0x5AA85839, 0x5FD28D7D, 0x05E1A388, 0x68F3B9C5),
              0x45F5A660, 0x17B2D387, 0x300D4D33, 0x640A820A);
  }

  lemma {:induction false} Rounds256To12(key: AesKey)
    requires |key| == 32 && Counts(key)
    ensures After(key, 12, St(0x51660495, 0x43539503, 0x14FB86E4, 0x01922521))
  {
    hide Counts, WordIs, Schedule, Rounds;
    Rounds256To9(key);
    Words256From40(key);
    NextRound(key, 10, St(0x4A824851, 0xC57E7E47, 0x643DE50C, 0x2AF3E8C9),
              0x7CCFF71C, 0xBEB4FE54, 0x13E6BBF0, 0xD261A7DF);
    NextRound(key, 11, St(0xC14907F6, 0xCA3B3AA0, 0x70E9AA31, 0x3B52B5EC),
              0xF01AFAFE, 0xE7A82979, 0xD7A5644A, 0xB3AFE640);
    NextRound(key, 12, St(0x5F9C6ABF, 0xBAC634AA, 0x50409FA7, 0x66677653),
              0x2541FE71, 0x9BF50025, 0x8813BBD5, 0x5A721C0A);
  }

  lemma {:induction false} Rounds256To13(key: AesKey)
    requires |key| == 32 && Counts(key)
    ensures After(key, 13, St(0x627BCEB9, 0x999D5AAA, 0xC945ECF4, 0x23F56DA5))
  {
    hide Counts, WordIs, Schedule, Rounds;
    Rounds256To12(key);
    Words256From40(key);
    NextRound(key, 13, St(0x51660495, 0x43539503, 0x14FB86E4, 0x01922521),
              0x4E5A6699, 0xA9F24FE0, 0x7E572BAA, 0xCDF8CDEA);
  }

  lemma {:induction false} Last256(key: AesKey)
    requires |key| == 32 && Counts(key)
    ensures Cipher(Schedule(key), 14, StateOf(PLAINTEXT)) == St(0x8EA2B7CA, 0x516745BF, 0xEAFC4990, 0x4B496089)
  {
    hide Counts, WordIs, Schedule, Rounds, Key;
    Rounds256To13(key);
    Words256From56(key);
    RoundKey(key, 14, 0x24FC79CC, 0xBF0979E9, 0x371AC23C, 0x6D68DE36);
  }

  /** Section C.3: a key of 32 bytes. */
  lemma {:induction false} Vector256(key: AesKey)
    requires |key| == 32 && forall i :: 0 <= i < |key| ==> key[i] == i as bv8
    ensures AesEncrypt(key, PLAINTEXT)
            == [0x8E, 0xA2, 0xB7, 0xCA, 0x51, 0x67, 0x45, 0xBF, 0xEA, 0xFC, 0x49, 0x90, 0x4B, 0x49, 0x60, 0x89]
  {
    hide Schedule, Cipher, StateOf;
    Last256(key);
  }
}
