/** XTS, IEEE 1619 and NIST SP 800-38E: tweaked blocks with ciphertext stealing. */
module AesXts {
  import opened Bytes
  import opened AesTables
  import opened AesBlock
  import opened AesKeys

  // ----- the tweak

  function Load64(t: Block, i: nat): bv64
    requires i + 8 <= 16
  {
    (t[i] as bv64) | ((t[i + 1] as bv64) << 8) | ((t[i + 2] as bv64) << 16) | ((t[i + 3] as bv64) << 24)
    | ((t[i + 4] as bv64) << 32) | ((t[i + 5] as bv64) << 40) | ((t[i + 6] as bv64) << 48) | ((t[i + 7] as bv64) << 56)
  }

  function Byte64(w: bv64, k: bv64): bv8
    requires k <= 56
  {
    ((w >> k) & 0xFF) as bv8
  }

  function Store64(w: bv64): (s: seq<bv8>)
    ensures |s| == 8
  {
    [Byte64(w, 0), Byte64(w, 8), Byte64(w, 16), Byte64(w, 24), Byte64(w, 32), Byte64(w, 40), Byte64(w, 48), Byte64(w, 56)]
  }

  /** The step from a tweak to the next one, on two 64-bit words. */
  function NextTweak(t: Block): Block {
    var a, b := Load64(t, 0), Load64(t, 8);
    var top := (b >> 63) << 3;
    assert top <= 8;
    var ra := (a << 1) ^ ((0x0087 as bv64) >> (8 - top));
    var rb := (a >> 63) | (b << 1);
    Store64(ra) + Store64(rb)
  }

  /** The same byte by byte: every byte takes the top bit of the one before. */
  lemma {:induction false} LowTweakBytes(t: Block)
    ensures var r := NextTweak(t);
            && r[0] == (t[0] << 1) ^ (if t[15] & 0x80 != 0 then 0x87 else 0)
            && r[1] == Carried(t[1], t[0]) && r[2] == Carried(t[2], t[1]) && r[3] == Carried(t[3], t[2])
            && r[4] == Carried(t[4], t[3]) && r[5] == Carried(t[5], t[4]) && r[6] == Carried(t[6], t[5])
            && r[7] == Carried(t[7], t[6])
  {}

  lemma {:induction false} HighTweakBytes(t: Block)
    ensures var r := NextTweak(t);
            && r[8] == Carried(t[8], t[7]) && r[9] == Carried(t[9], t[8]) && r[10] == Carried(t[10], t[9])
            && r[11] == Carried(t[11], t[10]) && r[12] == Carried(t[12], t[11]) && r[13] == Carried(t[13], t[12])
            && r[14] == Carried(t[14], t[13]) && r[15] == Carried(t[15], t[14])
  {}

  function Carried(x: bv8, y: bv8): bv8 { (x << 1) | (y >> 7) }

  function Mask(j: nat): bv8 {
    if j == 0 then 0x01 else if j == 1 then 0x02 else if j == 2 then 0x04 else if j == 3 then 0x08
    else if j == 4 then 0x10 else if j == 5 then 0x20 else if j == 6 then 0x40 else 0x80
  }

  predicate BitOf(x: bv8, j: nat) { x & Mask(j) != 0 }

  /** The coefficient of x^k of the polynomial that a tweak stands for. */
  predicate Coefficient(t: Block, k: nat)
    requires k < 128
  {
    BitOf(t[k / 8], k % 8)
  }

  lemma {:induction false} CarriedBit(x: bv8, y: bv8, j: nat)
    requires j < 8
    ensures BitOf(Carried(x, y), j) == if j == 0 then BitOf(y, 7) else BitOf(x, j - 1)
  {}

  lemma {:induction false} ReducedBit(x: bv8, top: bool, j: nat)
    requires j < 8
    ensures BitOf((x << 1) ^ (if top then 0x87 else 0), j)
            == ((j > 0 && BitOf(x, j - 1)) != (top && (j == 0 || j == 1 || j == 2 || j == 7)))
  {}

  lemma {:induction false} CoefficientAt(t: Block, i: nat, j: nat)
    requires i < 16 && j < 8
    ensures Coefficient(t, 8 * i + j) == BitOf(t[i], j)
  {}

  /** The step multiplies by x in GF(2^128): coefficients move up by one, and x^128 is x^7 + x^2 + x + 1. */
  lemma {:induction false} TimesX(t: Block, k: nat)
    requires k < 128
    ensures Coefficient(NextTweak(t), k)
            <==> ((k > 0 && Coefficient(t, k - 1)) != (Coefficient(t, 127) && (k == 0 || k == 1 || k == 2 || k == 7)))
  {
    hide *;
    var i, j := k / 8, k % 8;
    assert k == 8 * i + j && i < 16;
    CoefficientAt(NextTweak(t), i, j);
    CoefficientAt(t, 15, 7);
    if k > 0 { CoefficientAt(t, if j > 0 then i else i - 1, if j > 0 then j - 1 else 7); }
    if i == 0 { FirstByteBit(t, j); } else { OtherByteBit(t, i, j); }
  }

  lemma {:induction false} FirstByteBit(t: Block, j: nat)
    requires j < 8
    ensures BitOf(NextTweak(t)[0], j)
            == ((j > 0 && BitOf(t[0], j - 1)) != (BitOf(t[15], 7) && (j == 0 || j == 1 || j == 2 || j == 7)))
  {
    hide NextTweak, BitOf;
    LowTweakBytes(t);
    TopBit(t[15]);
    ReducedBit(t[0], BitOf(t[15], 7), j);
  }

  lemma {:induction false} OtherByteBit(t: Block, i: nat, j: nat)
    requires 0 < i < 16 && j < 8
    ensures BitOf(NextTweak(t)[i], j) == if j == 0 then BitOf(t[i - 1], 7) else BitOf(t[i], j - 1)
  {
    hide NextTweak, BitOf, Carried;
    CarriedByte(t, i);
    CarriedBit(t[i], t[i - 1], j);
  }

  lemma {:induction false} TopBit(x: bv8)
    ensures BitOf(x, 7) == (x & 0x80 != 0)
  {}

  lemma {:induction false} CarriedByte(t: Block, i: nat)
    requires 0 < i < 16
    ensures NextTweak(t)[i] == Carried(t[i], t[i - 1])
  {
    hide NextTweak, Carried;
    LowTweakBytes(t);
    HighTweakBytes(t);
  }

  // ----- data units

  /** The block function of a mode under a key. */
  function Ciphering(key: AesKey, mode: Mode): Block -> Block {
    if mode == EncryptMode then Encryption(key) else Decryption(key)
  }

  function Tweaked(cipher: Block -> Block, b: Block, t: Block): Block {
    hide XorBlock;
    XorBlock(cipher(XorBlock(b, t)), t)
  }

  /** The last full block and what is left over behind it: the other block is filled up with bytes of the
      first result. Encryption uses the tweaks in order, decryption the other way round. */
  function Stolen(cipher: Block -> Block, mode: Mode, t: Block, input: seq<bv8>): (s: seq<bv8>)
    requires 16 < |input| < 32
    ensures |s| == |input|
  {
    hide Tweaked, NextTweak;
    var r, next := |input| - 16, NextTweak(t);
    var first := Tweaked(cipher, input[..16], if mode == EncryptMode then t else next);
    Tweaked(cipher, input[16..] + first[r..], if mode == EncryptMode then next else t) + first[..r]
  }

  function Xts(cipher: Block -> Block, mode: Mode, t: Block, input: seq<bv8>): (s: seq<bv8>)
    requires |input| >= 16
    ensures |s| == |input|
    decreases |input|
  {
    hide Tweaked, NextTweak;
    if |input| == 16 then Tweaked(cipher, input, t)
    else if |input| < 32 then Stolen(cipher, mode, t, input)
    else Tweaked(cipher, input[..16], t) + Xts(cipher, mode, NextTweak(t), input[16..])
  }

  lemma {:induction false} TweakedInverse(encrypt: Block -> Block, decrypt: Block -> Block, b: Block, t: Block)
    requires AreInverse(encrypt, decrypt)
    ensures Tweaked(decrypt, Tweaked(encrypt, b, t), t) == b
  {
    hide XorBlock;
    XorBlockTwice(encrypt(XorBlock(b, t)), t);
    XorBlockTwice(b, t);
  }

  /** Decrypting a stolen tail: swapping the two last tweaks gives both blocks back. */
  lemma {:induction false} StolenInverse(encrypt: Block -> Block, decrypt: Block -> Block, t: Block, input: seq<bv8>)
    requires 16 < |input| < 32 && AreInverse(encrypt, decrypt)
    ensures Stolen(decrypt, DecryptMode, t, Stolen(encrypt, EncryptMode, t, input)) == input
  {
    hide Tweaked, NextTweak, AreInverse;
    var r, next := |input| - 16, NextTweak(t);
    var first := Tweaked(encrypt, input[..16], t);
    var last := input[16..] + first[r..];
    var out := Stolen(encrypt, EncryptMode, t, input);
    assert out[..16] == Tweaked(encrypt, last, next) && out[16..] == first[..r];
    TweakedInverse(encrypt, decrypt, last, next);
    assert last[r..] == first[r..] && last[..r] == input[16..] && first[..r] + first[r..] == first;
    TweakedInverse(encrypt, decrypt, input[..16], t);
    assert input[..16] + input[16..] == input;
  }

  /** Decryption inverts encryption for every length from one block on. */
  lemma {:induction false} XtsInverse(encrypt: Block -> Block, decrypt: Block -> Block, t: Block, input: seq<bv8>)
    requires |input| >= 16 && AreInverse(encrypt, decrypt)
    ensures Xts(decrypt, DecryptMode, t, Xts(encrypt, EncryptMode, t, input)) == input
    decreases |input|
  {
    hide Tweaked, NextTweak, Stolen, AreInverse;
    if |input| == 16 {
      TweakedInverse(encrypt, decrypt, input, t);
    } else if |input| < 32 {
      StolenInverse(encrypt, decrypt, t, input);
    } else {
      var first: seq<bv8>, rest: seq<bv8> := Tweaked(encrypt, input[..16], t), Xts(encrypt, EncryptMode, NextTweak(t), input[16..]);
      assert (first + rest)[..16] == first && (first + rest)[16..] == rest;
      TweakedInverse(encrypt, decrypt, input[..16], t);
      XtsInverse(encrypt, decrypt, NextTweak(t), input[16..]);
      assert input[..16] + input[16..] == input;
    }
  }

  // ----- the method

  method XorBlocks(b: seq<bv8>, t: Block) returns (r: Block)
    requires |b| == 16
    ensures r == XorBlock(b, t)
  {
    hide Xor;
    var tmp := new bv8[16];
    for i := 0 to 16
      invariant forall k :: 0 <= k < i ==> tmp[k] == Xor(b[k], t[k])
    {
      tmp[i] := Xor(b[i], t[i]);
    }
    r := tmp[..];
    assert r == XorBlock(b, t);
  }

  method CryptEcb(ctx: Context, mode: Mode, input: Block, ghost key: AesKey) returns (output: Block)
    requires if mode == EncryptMode then ctx.EncryptsWith(key) else ctx.DecryptsWith(key)
    ensures output == Ciphering(key, mode)(input)
  {
    hide AesEncrypt, AesDecrypt;
    if mode == EncryptMode { output := ctx.EncryptBlock(input, key); } else { output := ctx.DecryptBlock(input, key); }
  }

  method CryptTweaked(ctx: Context, mode: Mode, input: Block, tweak: Block, ghost key: AesKey) returns (output: Block)
    requires if mode == EncryptMode then ctx.EncryptsWith(key) else ctx.DecryptsWith(key)
    ensures output == Tweaked(Ciphering(key, mode), input, tweak)
  {
    hide Ciphering, XorBlock;
    output := XorBlocks(input, tweak);
    output := CryptEcb(ctx, mode, output, key);
    output := XorBlocks(output, tweak);
  }

  datatype XtsStatus = XtsOk | InvalidInputLength

  const MAX_UNIT: nat := 0x10_0000 * 16

  /** What is still to be written from `at` on. */
  function XtsRest(cipher: Block -> Block, mode: Mode, t: Block, input: seq<bv8>, at: nat): seq<bv8>
    requires at == |input| || at + 16 <= |input|
  {
    hide *;
    if at == |input| then [] else Xts(cipher, mode, t, input[at..])
  }

  lemma {:induction false} RestWhole(cipher: Block -> Block, mode: Mode, t: Block, input: seq<bv8>)
    requires |input| >= 16
    ensures [] + XtsRest(cipher, mode, t, input, 0) == Xts(cipher, mode, t, input)
  {
    hide Xts;
    assert input[0..] == input;
  }

  lemma {:induction false} NothingLeft(cipher: Block -> Block, mode: Mode, t: Block, input: seq<bv8>, done: seq<bv8>)
    ensures done + XtsRest(cipher, mode, t, input, |input|) == done
  {}

  /** A full block with no tail or another full block behind it. */
  lemma {:induction false} FullBlock(cipher: Block -> Block, mode: Mode, t: Block, input: seq<bv8>, at: nat,
                                     whole: seq<bv8>, done: seq<bv8>)
    requires at + 16 == |input| || at + 32 <= |input|
    requires whole == done + XtsRest(cipher, mode, t, input, at)
    ensures whole == done + Tweaked(cipher, input[at..at + 16], t) + XtsRest(cipher, mode, NextTweak(t), input, at + 16)
  {
    hide Tweaked, NextTweak, Stolen;
    assert input[at..][..16] == input[at..at + 16] && input[at..][16..] == input[at + 16..];
    if |input| - at == 16 { assert input[at..] == input[at..at + 16]; }
    var b, rest := Tweaked(cipher, input[at..at + 16], t), XtsRest(cipher, mode, NextTweak(t), input, at + 16);
    assert XtsRest(cipher, mode, t, input, at) == b + rest;
    assert done + (b + rest) == done + b + rest;
  }

  /** The last full block of a unit with a tail has been written to `at`. The tweak t is the one of that
      place: encryption has used it, decryption has used the next one and kept it for the tail. */
  ghost predicate TailReady(cipher: Block -> Block, mode: Mode, t: Block, input: seq<bv8>, at: nat, block: Block, tweak: Block,
                            whole: seq<bv8>, done: seq<bv8>)
    requires 16 <= at < |input| < at + 16
  {
    hide *;
    && whole == done + Stolen(cipher, mode, t, input[at - 16..])
    && block == Tweaked(cipher, input[at - 16..at], if mode == EncryptMode then t else NextTweak(t))
    && tweak == if mode == EncryptMode then NextTweak(t) else t
  }

  lemma {:induction false} LastFullBlock(cipher: Block -> Block, mode: Mode, t: Block, input: seq<bv8>, at: nat, block: Block,
                                         tweak: Block, whole: seq<bv8>, done: seq<bv8>)
    requires at + 16 < |input| < at + 32 && whole == done + XtsRest(cipher, mode, t, input, at)
    requires block == Tweaked(cipher, input[at..at + 16], if mode == EncryptMode then t else NextTweak(t))
    requires tweak == if mode == EncryptMode then NextTweak(t) else t
    ensures TailReady(cipher, mode, t, input, at + 16, block, tweak, whole, done)
  {
    hide Tweaked, NextTweak, Stolen;
  }

  /** A tail filled up with bytes of the block before it, then what that block has left. */
  function TailFilled(cipher: Block -> Block, mode: Mode, tail: seq<bv8>, block: Block, tweak: Block): seq<bv8>
    requires 0 < |tail| < 16
  {
    hide *;
    Tweaked(cipher, tail + block[|tail|..], tweak) + block[..|tail|]
  }

  lemma {:induction false} TailStolen(cipher: Block -> Block, mode: Mode, t: Block, input: seq<bv8>, at: nat, block: Block, tweak: Block,
                                      whole: seq<bv8>, done: seq<bv8>)
    requires 16 <= at < |input| < at + 16 && TailReady(cipher, mode, t, input, at, block, tweak, whole, done)
    ensures whole == done + TailFilled(cipher, mode, input[at..], block, tweak)
  {
    hide Tweaked, NextTweak;
    assert input[at - 16..][..16] == input[at - 16..at] && input[at - 16..][16..] == input[at..];
  }

  /** The tail: the block before it gives away its last bytes and is replaced. */
  method Steal(ctx: Context, mode: Mode, tail: seq<bv8>, t: Block, output: array<bv8>, at: nat, ghost block: Block,
               ghost key: AesKey, ghost before: seq<bv8>, ghost done: seq<bv8>)
    requires if mode == EncryptMode then ctx.EncryptsWith(key) else ctx.DecryptsWith(key)
    requires 0 < |tail| < 16 && |done| + 16 == at && at + |tail| <= output.Length
    requires Written(output[..], before, done + block)
    modifies output
    ensures Written(output[..], before, done + TailFilled(Ciphering(key, mode), mode, tail, block, t))
  {
    hide Tweaked, Written;
    var r := |tail|;
    LastBlock(output[..], before, done, block);
    var previous: Block := output[at - 16..at];
    var end := CopyBytes(output, at, previous[..r], before, done + block);
    var b := CryptTweaked(ctx, mode, tail + previous[r..], t, key);
    Replace(output, at - 16, b, block, previous[..r], before, done);
    assert done + b + previous[..r] == done + (b + previous[..r]);
  }

  lemma {:induction false} LastBlock(now: seq<bv8>, before: seq<bv8>, done: seq<bv8>, block: seq<bv8>)
    requires Written(now, before, done + block)
    ensures |done| + |block| <= |now| && now[|done|..|done| + |block|] == block
  {}

  /** Writes a block over an earlier one. */
  method Replace(output: array<bv8>, at: nat, b: Block, ghost block: Block, ghost rest: seq<bv8>,
                 ghost before: seq<bv8>, ghost done: seq<bv8>)
    requires |done| == at && Written(output[..], before, done + block + rest)
    modifies output
    ensures Written(output[..], before, done + b + rest)
  {
    ghost var now := output[..];
    assert at + 16 + |rest| <= output.Length;
    forall k | 0 <= k < 16 {
      output[at + k] := b[k];
    }
    assert output[..at] == done && output[at..at + 16] == b;
    assert output[at + 16..] == now[at + 16..] == rest + before[at + 16 + |rest|..];
    assert output[..] == output[..at] + output[at..at + 16] + output[at + 16..];
  }

  method CryptXts(crypt: Context, tweakContext: Context, mode: Mode, dataUnit: Block, input: seq<bv8>, output: array<bv8>,
                  ghost key: AesKey, ghost tweakKey: AesKey) returns (status: XtsStatus)
    requires if mode == EncryptMode then crypt.EncryptsWith(key) else crypt.DecryptsWith(key)
    requires tweakContext.EncryptsWith(tweakKey) && output.Length >= |input|
    modifies output
    ensures status == if 16 <= |input| <= 16_777_216 then XtsOk else InvalidInputLength
    ensures status == XtsOk ==>
              Written(output[..], old(output[..]), Xts(Ciphering(key, mode), mode, AesEncrypt(tweakKey, dataUnit), input))
    ensures status != XtsOk ==> output[..] == old(output[..])
  {
    hide Tweaked, NextTweak, AesEncrypt, Written, Xts, XtsRest, Ciphering, TailReady;
    if |input| < 16 || |input| > MAX_UNIT { return InvalidInputLength; }
    var blocks, leftover := |input| / 16, |input| % 16;
    var tweak := tweakContext.EncryptBlock(dataUnit, tweakKey);
    var previous := tweak;
    ghost var cipher := Ciphering(key, mode);
    ghost var before: seq<bv8>, done: seq<bv8>, whole: seq<bv8> := output[..], [], Xts(cipher, mode, tweak, input);
    ghost var base: Block := tweak;
    var block: Block := tweak;
    WrittenNothing(before);
    RestWhole(cipher, mode, tweak, input);
    var at: nat := 0;
    while blocks > 0
      invariant blocks >= 0 && at + 16 * blocks + leftover == |input|
      invariant if mode == EncryptMode then crypt.EncryptsWith(key) else crypt.DecryptsWith(key)
      invariant blocks > 0 || leftover == 0 ==>
                  && |done| == at && Written(output[..], before, done)
                  && whole == done + XtsRest(cipher, mode, tweak, input, at)
      invariant blocks == 0 && leftover > 0 ==>
                  && |done| + 16 == at && Written(output[..], before, done + block)
                  && TailReady(cipher, mode, base, input, at, block, if mode == EncryptMode then tweak else previous, whole, done)
    {
      blocks := blocks - 1;
      base := tweak;
      if leftover > 0 && mode == DecryptMode && blocks == 0 {
        previous := tweak;
        tweak := NextTweak(tweak);
      }
      block := CryptTweaked(crypt, mode, input[at..at + 16], tweak, key);
      tweak := NextTweak(tweak);
      at := CopyBytes(output, at, block, before, done);
      if blocks == 0 && leftover > 0 {
        LastFullBlock(cipher, mode, base, input, at - 16, block, if mode == EncryptMode then tweak else previous, whole, done);
      } else {
        FullBlock(cipher, mode, base, input, at - 16, whole, done);
        done := done + block;
      }
    }
    assert leftover == 0 ==> whole == done by { NothingLeft(cipher, mode, tweak, input, done); }
    if leftover > 0 {
      var t := if mode == DecryptMode then previous else tweak;
      TailStolen(cipher, mode, base, input, at, block, t, whole, done);
      Steal(crypt, mode, input[at..], t, output, at, block, key, before, done);
    }
    status := XtsOk;
  }

  // ----- the context

  type XtsKey = k: seq<bv8> | |k| == 32 || |k| == 64 witness seq(32, i => 0)

  predicate IsXtsBits(keybits: nat) { keybits == 256 || keybits == 512 }

  /** The first half of the key is for the blocks, the second for the tweak. */
  function CryptKey(key: XtsKey): AesKey { key[..|key| / 2] }

  function TweakKey(key: XtsKey): AesKey { key[|key| / 2..] }

  /** A data unit under a key: the tweak is encrypted in both modes. */
  function XtsUnit(key: XtsKey, mode: Mode, dataUnit: Block, input: seq<bv8>): (s: seq<bv8>)
    requires |input| >= 16
    ensures |s| == |input|
  {
    Xts(Ciphering(CryptKey(key), mode), mode, AesEncrypt(TweakKey(key), dataUnit), input)
  }

  /** For every key, data unit number and length from one block on, decryption gives the data unit back. */
  lemma {:induction false} XtsUnitInverse(key: XtsKey, dataUnit: Block, input: seq<bv8>)
    requires |input| >= 16
    ensures XtsUnit(key, DecryptMode, dataUnit, XtsUnit(key, EncryptMode, dataUnit, input)) == input
  {
    hide Xts, AesEncrypt, Encryption, Decryption, AreInverse;
    AesInverse(CryptKey(key));
    XtsInverse(Encryption(CryptKey(key)), Decryption(CryptKey(key)), AesEncrypt(TweakKey(key), dataUnit), input);
  }

  // ----- the layout of a data unit, section 5.3 of IEEE 1619

  /** The tweak of block j: the first one times x to the power of j. */
  function TweakAt(t: Block, j: nat): Block { if j == 0 then t else NextTweak(TweakAt(t, j - 1)) }

  lemma {:induction false} TweakShift(t: Block, j: nat)
    ensures TweakAt(NextTweak(t), j) == TweakAt(t, j + 1)
  {
    hide NextTweak;
    if j > 0 { TweakShift(t, j - 1); }
  }

  /** A block that no ciphertext is stolen from. */
  predicate IsWholeBlock(length: nat, j: nat) { if length % 16 == 0 then 16 * j + 16 <= length else 16 * j + 32 <= length }

  lemma {:induction false} WholeBlock(cipher: Block -> Block, mode: Mode, t: Block, input: seq<bv8>, j: nat)
    requires |input| >= 16 && IsWholeBlock(|input|, j)
    ensures Xts(cipher, mode, t, input)[16 * j..16 * j + 16] == Tweaked(cipher, input[16 * j..16 * j + 16], TweakAt(t, j))
    decreases |input|
  {
    hide Tweaked, NextTweak, Stolen;
    if |input| >= 32 {
      var first: seq<bv8>, rest := Tweaked(cipher, input[..16], t), Xts(cipher, mode, NextTweak(t), input[16..]);
      if j == 0 {
        assert (first + rest)[..16] == first;
      } else {
        WholeBlock(cipher, mode, NextTweak(t), input[16..], j - 1);
        TweakShift(t, j - 1);
        assert (first + rest)[16 * j..16 * j + 16] == rest[16 * j - 16..16 * j];
        assert input[16..][16 * j - 16..16 * j] == input[16 * j..16 * j + 16];
      }
    } else {
      assert input[..16] == input;
    }
  }

  lemma {:induction false} TailBlocks(cipher: Block -> Block, t: Block, input: seq<bv8>, m: nat)
    requires 16 * m + 16 < |input| < 16 * m + 32
    ensures var r := |input| - 16 * m - 16;
            var first := Tweaked(cipher, input[16 * m..16 * m + 16], TweakAt(t, m));
            Xts(cipher, EncryptMode, t, input)[16 * m..]
            == Tweaked(cipher, input[16 * m + 16..] + first[r..], TweakAt(t, m + 1)) + first[..r]
    decreases m
  {
    hide Tweaked, NextTweak;
    if m > 0 {
      var first: seq<bv8>, rest := Tweaked(cipher, input[..16], t), Xts(cipher, EncryptMode, NextTweak(t), input[16..]);
      TailBlocks(cipher, NextTweak(t), input[16..], m - 1);
      TweakShift(t, m - 1);
      TweakShift(t, m);
      assert (first + rest)[16 * m..] == rest[16 * m - 16..];
      assert input[16..][16 * m - 16..16 * m] == input[16 * m..16 * m + 16] && input[16..][16 * m..] == input[16 * m + 16..];
    } else {
      assert TweakAt(t, 1) == NextTweak(TweakAt(t, 0));
      assert Xts(cipher, EncryptMode, t, input)[0..] == Stolen(cipher, EncryptMode, t, input);
      assert input[0..16] == input[..16];
    }
  }

  /** b masked with t, byte by byte. */
  predicate IsSum(r: seq<bv8>, b: seq<bv8>, t: seq<bv8>) {
    |r| == |b| == |t| == 16 && forall k :: 0 <= k < 16 ==> r[k] == Xor(b[k], t[k])
  }

  lemma {:induction false} TweakedSums(cipher: Block -> Block, b: Block, t: Block, masked: Block)
    requires IsSum(masked, b, t)
    ensures IsSum(Tweaked(cipher, b, t), cipher(masked), t)
  {
    hide Xor;
    assert masked == XorBlock(b, t);
  }

  /** Under the first half of the key block j is masked, encrypted and masked again, with the data unit number
      encrypted under the second half times x^j. */
  lemma {:induction false} XtsBlockLayout(key: XtsKey, first: AesKey, second: AesKey, dataUnit: Block, t: Block,
                                          input: seq<bv8>, j: nat, masked: Block)
    requires key == first + second && |first| == |second| && t == AesEncrypt(second, dataUnit)
    requires |input| >= 16 && IsWholeBlock(|input|, j) && IsSum(masked, input[16 * j..16 * j + 16], TweakAt(t, j))
    ensures var out := XtsUnit(key, EncryptMode, dataUnit, input);
            IsSum(out[16 * j..16 * j + 16], AesEncrypt(first, masked), TweakAt(t, j))
  {
    hide Xts, Tweaked, NextTweak, AesEncrypt, TweakAt, Xor;
    assert CryptKey(key) == first && TweakKey(key) == second;
    WholeBlock(Encryption(first), EncryptMode, t, input, j);
    TweakedSums(Encryption(first), input[16 * j..16 * j + 16], TweakAt(t, j), masked);
  }

  /** With a tail of r bytes behind block m, which is encrypted to c: the tail filled up with the last bytes of c is
      encrypted with the next tweak in the place of block m, and the first r bytes of c stand behind it. */
  lemma {:induction false} XtsTailLayout(key: XtsKey, first: AesKey, second: AesKey, dataUnit: Block, t: Block,
                                         input: seq<bv8>, m: nat, r: nat, masked: Block, c: Block, last: Block)
    requires key == first + second && |first| == |second| && t == AesEncrypt(second, dataUnit)
    requires |input| == 16 * m + 16 + r && 0 < r < 16
    requires IsSum(masked, input[16 * m..16 * m + 16], TweakAt(t, m))
    requires IsSum(c, AesEncrypt(first, masked), TweakAt(t, m))
    requires IsSum(last, input[16 * m + 16..] + c[r..], TweakAt(t, m + 1))
    ensures var out := XtsUnit(key, EncryptMode, dataUnit, input);
            && IsSum(out[16 * m..16 * m + 16], AesEncrypt(first, last), TweakAt(t, m + 1))
            && out[16 * m + 16..] == c[..r]
  {
    hide Xts, Tweaked, NextTweak, AesEncrypt, TweakAt, Xor, IsSum;
    assert CryptKey(key) == first && TweakKey(key) == second;
    var cipher := Encryption(first);
    var out := Xts(cipher, EncryptMode, t, input);
    TailBlocks(cipher, t, input, m);
    TweakedSums(cipher, input[16 * m..16 * m + 16], TweakAt(t, m), masked);
    SumUnique(c, Tweaked(cipher, input[16 * m..16 * m + 16], TweakAt(t, m)), AesEncrypt(first, masked), TweakAt(t, m));
    TweakedSums(cipher, input[16 * m + 16..] + c[r..], TweakAt(t, m + 1), last);
    assert out[16 * m..][..16] == out[16 * m..16 * m + 16] && out[16 * m..][16..] == out[16 * m + 16..];
  }

  lemma {:induction false} SumUnique(r: seq<bv8>, s: seq<bv8>, b: seq<bv8>, t: seq<bv8>)
    requires IsSum(r, b, t) && IsSum(s, b, t)
    ensures r == s
  {
    hide Xor;
  }

  class XtsContext {
    const crypt: Context
    const tweak: Context

    ghost predicate Valid() { crypt != tweak && crypt.rk != tweak.rk && crypt.rk.Length == tweak.rk.Length == 68 }

    ghost predicate Ready(mode: Mode, key: XtsKey)
      reads crypt, crypt.rk, tweak, tweak.rk
    {
      && Valid() && tweak.EncryptsWith(TweakKey(key))
      && if mode == EncryptMode then crypt.EncryptsWith(CryptKey(key)) else crypt.DecryptsWith(CryptKey(key))
    }

    constructor ()
      ensures Valid() && fresh(crypt) && fresh(crypt.rk) && fresh(tweak) && fresh(tweak.rk)
    {
      crypt := new Context();
      tweak := new Context();
    }

    /** For decryption only the schedule of the first key is turned round. */
    method SetkeyEnc(key: seq<bv8>, keybits: nat) returns (status: KeyStatus)
      requires Valid() && (IsXtsBits(keybits) ==> |key| == keybits / 8)
      modifies crypt`nr, crypt.rk, tweak`nr, tweak.rk
      ensures status == if keybits in {256, 512} then KeyOk else InvalidKeyLength
      ensures IsXtsBits(keybits) ==> Ready(EncryptMode, key)
      ensures !IsXtsBits(keybits) ==> unchanged(crypt, crypt.rk, tweak, tweak.rk)
    {
      if !IsXtsBits(keybits) { return InvalidKeyLength; }
      hide Schedule, InvSchedule;
      status := tweak.SetkeyEnc(TweakKey(key), keybits / 2);
      if status != KeyOk { return; }
      status := crypt.SetkeyEnc(CryptKey(key), keybits / 2);
    }

    method SetkeyDec(key: seq<bv8>, keybits: nat) returns (status: KeyStatus)
      requires Valid() && (IsXtsBits(keybits) ==> |key| == keybits / 8)
      modifies crypt`nr, crypt.rk, tweak`nr, tweak.rk
      ensures status == if keybits in {256, 512} then KeyOk else InvalidKeyLength
      ensures IsXtsBits(keybits) ==> Ready(DecryptMode, key)
      ensures !IsXtsBits(keybits) ==> unchanged(crypt, crypt.rk, tweak, tweak.rk)
    {
      if !IsXtsBits(keybits) { return InvalidKeyLength; }
      hide Schedule, InvSchedule;
      status := tweak.SetkeyEnc(TweakKey(key), keybits / 2);
      if status != KeyOk { return; }
      status := crypt.SetkeyDec(CryptKey(key), keybits / 2);
    }

    method Crypt(mode: Mode, dataUnit: Block, input: seq<bv8>, output: array<bv8>, ghost key: XtsKey) returns (status: XtsStatus)
      requires Ready(mode, key) && output.Length >= |input|
      modifies output
      ensures status == if 16 <= |input| <= 16_777_216 then XtsOk else InvalidInputLength
      ensures status == XtsOk ==> Written(output[..], old(output[..]), XtsUnit(key, mode, dataUnit, input))
      ensures status != XtsOk ==> output[..] == old(output[..])
    {
      hide Xts, Written, Ciphering, AesEncrypt;
      status := CryptXts(crypt, tweak, mode, dataUnit, input, output, CryptKey(key), TweakKey(key));
    }
  }
}
