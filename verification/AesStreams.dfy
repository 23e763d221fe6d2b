/** The stream modes CTR and CFB128, sections 6.5 and 6.3 of NIST SP 800-38A. */
module AesStreams {
  import opened Bytes
  import opened Division
  import opened AesTables
  import opened AesBlock
  import opened AesKeys

  // ----- the counter

  /** Adds one to the big-endian number in the first i bytes, carrying to the front. */
  function IncrementFrom(c: Block, i: nat): Block
    requires i <= 16
    decreases i
  {
    if i == 0 then c
    else
      var x := c[i - 1] + 1;
      var d := c[i - 1 := x];
      if x != 0 then d else IncrementFrom(d, i - 1)
  }

  function Increment(c: Block): Block { IncrementFrom(c, 16) }

  function Power256(n: nat): (p: nat)
    ensures p > 0
  {
    if n == 0 then 1 else 256 * Power256(n - 1)
  }

  function Value(s: seq<bv8>): (v: nat)
    ensures v < Power256(|s|)
  {
    if s == [] then 0 else Value(s[..|s| - 1]) * 256 + s[|s| - 1] as nat
  }

  lemma {:induction false} ByteIncrement(x: bv8)
    ensures (x + 1) as nat == if x == 255 then 0 else x as nat + 1
    ensures x + 1 == 0 <==> x == 255
  {}

  lemma {:induction false} IncrementFromValue(c: Block, i: nat)
    requires i <= 16
    ensures var d := IncrementFrom(c, i);
            Value(d[..i]) == (if Value(c[..i]) + 1 == Power256(i) then 0 else Value(c[..i]) + 1) && d[i..] == c[i..]
    decreases i
  {
    if i > 0 {
      ByteIncrement(c[i - 1]);
      var x := c[i - 1] + 1;
      var d := c[i - 1 := x];
      assert d[..i - 1] == c[..i - 1] == c[..i][..i - 1] && d[..i][..i - 1] == d[..i - 1] && d[i..] == c[i..];
      if x == 0 {
        IncrementFromValue(d, i - 1);
        var e := IncrementFrom(d, i - 1);
        assert e[i - 1] == e[i - 1..][0] == d[i - 1..][0] == 0 && e[..i][..i - 1] == e[..i - 1];
        assert e[i..] == e[i - 1..][1..] == d[i - 1..][1..] == d[i..];
      }
    }
  }

  /** The carry loop adds one modulo 2^128. */
  lemma {:induction false} IncrementValue(c: Block)
    ensures Value(Increment(c)) == if Value(c) + 1 == Power256(16) then 0 else Value(c) + 1
  {
    hide Power256, Value;
    IncrementFromValue(c, 16);
    assert c[..16] == c && Increment(c)[..16] == Increment(c);
  }

  function Advance(c: Block, j: nat): Block { if j == 0 then c else Increment(Advance(c, j - 1)) }

  lemma {:induction false} AdvanceValue(c: Block, j: nat)
    ensures Value(Advance(c, j)) == (Value(c) + j) % Power256(16)
  {
    hide Increment, Power256, Value;
    if j == 0 {
      LowPart(Value(c), Power256(16), 0, Value(c));
    } else {
      AdvanceValue(c, j - 1);
      IncrementValue(Advance(c, j - 1));
      ModStep(Value(c) + j - 1, Power256(16));
    }
  }

  method IncrementCounter(counter: array<bv8>)
    requires counter.Length == 16
    modifies counter
    ensures counter[..] == Increment(old(counter[..]))
  {
    var i := 16;
    ghost var c := counter[..];
    while i > 0
      invariant 0 <= i <= 16 && IncrementFrom(counter[..], i) == Increment(c)
    {
      ghost var now := counter[..];
      counter[i - 1] := counter[i - 1] + 1;
      assert counter[..] == now[i - 1 := now[i - 1] + 1];
      if counter[i - 1] != 0 { break; }
      i := i - 1;
    }
  }

  // ----- CTR

  /** Byte k of the key stream that starts with counter c. */
  function StreamByte(cipher: Block -> Block, c: Block, k: nat): bv8 { hide *; cipher(Advance(c, k / 16))[k % 16] }

  /** Text under the key stream from its byte `from` on. */
  function CtrText(cipher: Block -> Block, c: Block, from: nat, text: seq<bv8>): (s: seq<bv8>)
    ensures |s| == |text|
  {
    hide *;
    seq(|text|, k requires 0 <= k < |text| => Xor(text[k], StreamByte(cipher, c, from + k)))
  }

  /** The state after `from` bytes: the offset in the block, the next counter, and the current block of the stream. */
  ghost predicate CtrState(cipher: Block -> Block, c: Block, from: nat, n: nat, counter: seq<bv8>, stream: seq<bv8>) {
    hide *;
    && n == from % 16 && counter == Advance(c, (from + 15) / 16)
    && (n != 0 ==> stream == cipher(Advance(c, from / 16)))
  }

  datatype StreamStatus = StreamOk | BadInputData

  method CryptCtr(ctx: Context, offset: nat, counter: array<bv8>, stream: array<bv8>, input: seq<bv8>, output: array<bv8>,
                  ghost key: AesKey, ghost c: Block, ghost from: nat) returns (status: StreamStatus, n: nat)
    requires ctx.EncryptsWith(key) && counter.Length == 16 && stream.Length == 16 && output.Length >= |input|
    requires counter != stream && counter != output && stream != output
    requires offset <= 15 ==> CtrState(Encryption(key), c, from, offset, counter[..], stream[..])
    modifies counter, stream, output
    ensures status == if offset > 15 then BadInputData else StreamOk
    ensures status == StreamOk ==>
              && Written(output[..], old(output[..]), CtrText(Encryption(key), c, from, input))
              && CtrState(Encryption(key), c, from + |input|, n, counter[..], stream[..])
  {
    hide AesEncrypt, Written, Advance, Increment, CtrText, StreamByte;
    n := offset;
    if n > 15 { return BadInputData, n; }
    ghost var before, done := output[..], CtrText(Encryption(key), c, from, []);
    StartWriting(before, done);
    var at := 0;
    while at < |input|
      invariant 0 <= at <= |input| && |done| == at && ctx.EncryptsWith(key)
      invariant Written(output[..], before, done) && done == CtrText(Encryption(key), c, from, input[..at])
      invariant CtrState(Encryption(key), c, from + at, n, counter[..], stream[..])
    {
      ghost var p := from + at;
      if n == 0 {
        var block := ctx.EncryptBlock(counter[..], key);
        IncrementCounter(counter);
        var k := CopyBlock(stream, block);
        NextBlock(c, p);
      }
      assert stream[..] == Encryption(key)(Advance(c, p / 16));
      CtrByte(Encryption(key), c, from, input, at);
      at := PutByte(output, at, Xor(input[at], stream[n]), before, done);
      done := CtrText(Encryption(key), c, from, input[..at]);
      n := (n + 1) % 16;
      NextOffset(c, p);
    }
    assert input[..at] == input;
    status := StreamOk;
  }

  lemma {:induction false} StartWriting(before: seq<bv8>, done: seq<bv8>)
    requires done == []
    ensures Written(before, before, done)
  {}

  method CopyBlock(a: array<bv8>, b: Block) returns (k: nat)
    requires a.Length == 16
    modifies a
    ensures a[..] == b
  {
    forall i | 0 <= i < 16 { a[i] := b[i]; }
    k := 16;
  }

  lemma {:induction false} NextBlock(c: Block, p: nat)
    requires p % 16 == 0
    ensures (p + 15) / 16 == p / 16 && Increment(Advance(c, p / 16)) == Advance(c, p / 16 + 1)
  {}

  lemma {:induction false} NextOffset(c: Block, p: nat)
    ensures (p + 1) % 16 == (p % 16 + 1) % 16
    ensures (p + 1 + 15) / 16 == p / 16 + 1
    ensures (p + 1) % 16 != 0 ==> (p + 1) / 16 == p / 16
    ensures p % 16 != 0 ==> (p + 15) / 16 == p / 16 + 1
  {}

  lemma {:induction false} CtrByte(cipher: Block -> Block, c: Block, from: nat, input: seq<bv8>, at: nat)
    requires at < |input|
    ensures CtrText(cipher, c, from, input[..at + 1])
            == CtrText(cipher, c, from, input[..at]) + [Xor(input[at], StreamByte(cipher, c, from + at))]
    ensures StreamByte(cipher, c, from + at) == cipher(Advance(c, (from + at) / 16))[(from + at) % 16]
  {}

  /** One call over two pieces does what two calls do, so it does not matter how a text is cut. */
  lemma {:induction false} CtrPieces(cipher: Block -> Block, c: Block, from: nat, a: seq<bv8>, b: seq<bv8>)
    ensures CtrText(cipher, c, from, a + b) == CtrText(cipher, c, from, a) + CtrText(cipher, c, from + |a|, b)
  {}

  /** Encrypting twice with the same part of the key stream gives the text back. */
  lemma {:induction false} CtrTwice(cipher: Block -> Block, c: Block, from: nat, text: seq<bv8>)
    ensures CtrText(cipher, c, from, CtrText(cipher, c, from, text)) == text
  {}

  lemma {:induction false} ValueParts(s: seq<bv8>)
    requires s != []
    ensures Value(s) == 256 * Value(s[..|s| - 1]) + s[|s| - 1] as nat && s[|s| - 1] as nat < 256
  {}

  lemma {:induction false} ValueInjective(s: seq<bv8>, t: seq<bv8>)
    requires |s| == |t| && Value(s) == Value(t)
    ensures s == t
  {
    if s != [] {
      hide Value;
      var n := |s| - 1;
      ValueParts(s);
      ValueParts(t);
      OneDivision(256, Value(s[..n]), s[n] as nat, Value(t[..n]), t[n] as nat);
      ValueInjective(s[..n], t[..n]);
      SameByte(s[n], t[n]);
      assert s == s[..n] + [s[n]] && t == t[..n] + [t[n]];
    }
  }

  lemma {:induction false} SameByte(x: bv8, y: bv8)
    requires x as nat == y as nat
    ensures x == y
  {}

  /** Byte k of a text that starts at byte `from` of the stream is masked with the byte of the encrypted counter in
      that place: the counter is the big-endian number c plus the number of whole blocks in front, modulo 2^128. */
  lemma {:induction false} CtrFormula(cipher: Block -> Block, c: Block, from: nat, text: seq<bv8>, k: nat, counter: Block)
    requires k < |text|
    requires Value(counter) == (Value(c) + (from + k) / 16) % 0x1_0000_0000_0000_0000_0000_0000_0000_0000
    ensures CtrText(cipher, c, from, text)[k] == Xor(text[k], cipher(counter)[(from + k) % 16])
  {
    hide Value;
    var j := (from + k) / 16;
    assert Power256(16) == 0x1_0000_0000_0000_0000_0000_0000_0000_0000 by { PowerOfSixteen(); }
    AdvanceValue(c, j);
    ValueInjective(counter, Advance(c, j));
    CtrByte(cipher, c, from, text, k);
  }

  lemma {:induction false} PowerOfSixteen()
    ensures Power256(16) == 0x1_0000_0000_0000_0000_0000_0000_0000_0000
  {
    assert Power256(4) == 0x1_0000_0000;
    assert Power256(8) == 0x1_0000_0000_0000_0000;
    assert Power256(12) == 0x1_0000_0000_0000_0000_0000_0000;
  }

  /** Big-endian numbers, and a carry. */
  lemma {:induction false} CounterExample(c: Block, d: Block)
    requires c == [0xFF, 0, 0, 0, 0, 0, 0, 0, 0, 0, 0, 0, 0, 1, 2, 0xFF] && d == [0xFF, 0, 0, 0, 0, 0, 0, 0, 0, 0, 0, 0, 0, 1, 3, 0]
    ensures Increment(c) == d && Value(c[13..]) == 0x1_02FF
  {
    var low: seq<bv8> := [1, 2, 0xFF];
    assert c[13..] == low && low[..2] == [1, 2] && low[..2][..1] == [1];
    assert Value(low[..2][..1]) == 1;
    assert Value(low[..2]) == 258;
    assert c[15 := 0][14 := 3] == d;
    ByteIncrement(2);
    ByteIncrement(0xFF);
    assert IncrementFrom(c[15 := 0], 15) == d;
  }

  /** A fresh counter is a valid state, whatever the stream block holds. */
  lemma {:induction false} CtrStart(cipher: Block -> Block, c: Block, stream: seq<bv8>)
    ensures CtrState(cipher, c, 0, 0, c, stream)
  {}

  // ----- CFB128


  datatype Feedback = Feedback(iv: Block, n: nat, output: seq<bv8>)

  /** One byte: at the start of a block the feedback register is encrypted; then the byte of the ciphertext
      takes the place of the byte of the register it was masked with. */
  function CfbByte(cipher: Block -> Block, mode: Mode, iv: Block, n: nat, x: bv8): (r: (Block, bv8))
    requires n < 16
  {
    hide *;
    var v := if n == 0 then cipher(iv) else iv;
    var y := Xor(x, v[n]);
    (v[n := if mode == EncryptMode then y else x], y)
  }

  function Cfb(cipher: Block -> Block, mode: Mode, iv: Block, n: nat, input: seq<bv8>): (r: Feedback)
    requires n < 16
    ensures r.n < 16 && |r.output| == |input|
    decreases |input|
  {
    hide *;
    if input == [] then Feedback(iv, n, [])
    else
      var b := CfbByte(cipher, mode, iv, n, input[0]);
      var r := Cfb(cipher, mode, b.0, (n + 1) % 16, input[1..]);
      Feedback(r.iv, r.n, [b.1] + r.output)
  }

  lemma {:induction false} CfbPieces(cipher: Block -> Block, mode: Mode, iv: Block, n: nat, a: seq<bv8>, b: seq<bv8>)
    requires n < 16
    ensures var r := Cfb(cipher, mode, iv, n, a);
            var s := Cfb(cipher, mode, r.iv, r.n, b);
            Cfb(cipher, mode, iv, n, a + b) == Feedback(s.iv, s.n, r.output + s.output)
    decreases |a|
  {
    hide CfbByte;
    if a == [] {
      assert a + b == b && [] + Cfb(cipher, mode, iv, n, b).output == Cfb(cipher, mode, iv, n, b).output;
    } else {
      assert (a + b)[1..] == a[1..] + b;
      CfbPieces(cipher, mode, CfbByte(cipher, mode, iv, n, a[0]).0, (n + 1) % 16, a[1..], b);
    }
  }

  lemma {:induction false} CfbByteInverse(cipher: Block -> Block, iv: Block, n: nat, x: bv8)
    requires n < 16
    ensures var e := CfbByte(cipher, EncryptMode, iv, n, x);
            CfbByte(cipher, DecryptMode, iv, n, e.1) == (e.0, x)
  {}

  /** Decryption inverts encryption and leaves the same register. */
  lemma {:induction false} CfbInverse(cipher: Block -> Block, iv: Block, n: nat, input: seq<bv8>)
    requires n < 16
    ensures var e := Cfb(cipher, EncryptMode, iv, n, input);
            Cfb(cipher, DecryptMode, iv, n, e.output) == Feedback(e.iv, e.n, input)
    decreases |input|
  {
    hide CfbByte;
    if input != [] {
      var b := CfbByte(cipher, EncryptMode, iv, n, input[0]);
      CfbByteInverse(cipher, iv, n, input[0]);
      CfbInverse(cipher, b.0, (n + 1) % 16, input[1..]);
      var e := Cfb(cipher, EncryptMode, iv, n, input);
      assert e.output[1..] == Cfb(cipher, EncryptMode, b.0, (n + 1) % 16, input[1..]).output;
    }
  }

  /** A text handed over in several calls. */
  function CfbCalls(cipher: Block -> Block, mode: Mode, iv: Block, n: nat, calls: seq<seq<bv8>>): (r: Feedback)
    requires n < 16
    ensures r.n < 16
    decreases |calls|
  {
    hide *;
    if calls == [] then Feedback(iv, n, [])
    else
      var r := Cfb(cipher, mode, iv, n, calls[0]);
      var s := CfbCalls(cipher, mode, r.iv, r.n, calls[1..]);
      Feedback(s.iv, s.n, r.output + s.output)
  }

  function Joined(calls: seq<seq<bv8>>): seq<bv8> {
    if calls == [] then [] else calls[0] + Joined(calls[1..])
  }

  lemma {:induction false} CfbCallsJoined(cipher: Block -> Block, mode: Mode, iv: Block, n: nat, calls: seq<seq<bv8>>)
    requires n < 16
    ensures CfbCalls(cipher, mode, iv, n, calls) == Cfb(cipher, mode, iv, n, Joined(calls))
    decreases |calls|
  {
    hide CfbByte;
    if calls != [] {
      var r := Cfb(cipher, mode, iv, n, calls[0]);
      CfbPieces(cipher, mode, iv, n, calls[0], Joined(calls[1..]));
      CfbCallsJoined(cipher, mode, r.iv, r.n, calls[1..]);
    }
  }

  /** However the calls of the two sides are cut, decryption gives back what was encrypted. */
  lemma {:induction false} CfbAnyCalls(cipher: Block -> Block, iv: Block, n: nat, sent: seq<seq<bv8>>, received: seq<seq<bv8>>)
    requires n < 16 && Joined(received) == CfbCalls(cipher, EncryptMode, iv, n, sent).output
    ensures CfbCalls(cipher, DecryptMode, iv, n, received).output == Joined(sent)
  {
    hide Cfb, CfbCalls;
    CfbCallsJoined(cipher, EncryptMode, iv, n, sent);
    CfbCallsJoined(cipher, DecryptMode, iv, n, received);
    CfbInverse(cipher, iv, n, Joined(sent));
  }

  /** The register after k bytes of a block: ciphertext, then what is left of the mask e. */
  function Half(p: Block, e: Block, k: nat): Feedback
    requires k <= 16
  {
    hide Xor;
    var c := XorBlock(p, e);
    Feedback(c[..k] + e[k..], k % 16, c[..k])
  }

  lemma {:induction false} HalfStep(p: Block, e: Block, k: nat)
    requires 0 < k <= 16
    ensures var v := if k == 1 then e else Half(p, e, k - 1).iv;
            var y := Xor(p[k - 1], v[k - 1]);
            && Half(p, e, k).iv == v[k - 1 := y]
            && Half(p, e, k).output == (if k == 1 then [] else Half(p, e, k - 1).output) + [y]
  {
    hide Xor;
    var c := XorBlock(p, e);
    assert c[..k] == c[..k - 1] + [c[k - 1]];
  }

  lemma {:induction false} CfbHalf(cipher: Block -> Block, iv: Block, p: Block, k: nat)
    requires 0 < k <= 16
    ensures Cfb(cipher, EncryptMode, iv, 0, p[..k]) == Half(p, cipher(iv), k)
    decreases k
  {
    hide Xor, XorBlock, CfbByte, Cfb;
    var e := cipher(iv);
    HalfStep(p, e, k);
    if k == 1 {
      assert p[..1] == [p[0]];
      CfbOne(cipher, EncryptMode, iv, 0, p[0]);
    } else {
      CfbHalf(cipher, iv, p, k - 1);
      assert p[..k] == p[..k - 1] + [p[k - 1]];
      CfbPieces(cipher, EncryptMode, iv, 0, p[..k - 1], [p[k - 1]]);
      CfbOne(cipher, EncryptMode, Half(p, e, k - 1).iv, k - 1, p[k - 1]);
    }
  }

  lemma {:induction false} CfbOne(cipher: Block -> Block, mode: Mode, iv: Block, n: nat, x: bv8)
    requires n < 16
    ensures var b := CfbByte(cipher, mode, iv, n, x);
            Cfb(cipher, mode, iv, n, [x]) == Feedback(b.0, (n + 1) % 16, [b.1])
    ensures CfbByte(cipher, mode, iv, n, x)
            == var v := if n == 0 then cipher(iv) else iv;
               (v[n := if mode == EncryptMode then Xor(x, v[n]) else x], Xor(x, v[n]))
  {}

  /** A whole block: the plaintext masked with the encrypted register, which is then the ciphertext. */
  lemma {:induction false} CfbBlock(cipher: Block -> Block, iv: Block, p: Block)
    ensures var c := XorBlock(p, cipher(iv)); Cfb(cipher, EncryptMode, iv, 0, p) == Feedback(c, 0, c)
  {
    hide *;
    CfbHalf(cipher, iv, p, 16);
    HalfWhole(p, cipher(iv));
    assert p[..16] == p;
  }

  lemma {:induction false} HalfWhole(p: Block, e: Block)
    ensures Half(p, e, 16) == Feedback(XorBlock(p, e), 0, XorBlock(p, e))
  {}

  method CryptCfb128(ctx: Context, mode: Mode, offset: nat, iv: array<bv8>, input: seq<bv8>, output: array<bv8>, ghost key: AesKey)
    returns (status: StreamStatus, n: nat)
    requires ctx.EncryptsWith(key) && iv.Length == 16 && output.Length >= |input| && iv != output
    modifies iv, output
    ensures status == if offset > 15 then BadInputData else StreamOk
    ensures status == StreamOk ==>
              var r := Cfb(Encryption(key), mode, old(iv[..]), offset, input);
              iv[..] == r.iv && n == r.n && Written(output[..], old(output[..]), r.output)
  {
    hide AesEncrypt, Written, Cfb, CfbByte;
    n := offset;
    if n > 15 { return BadInputData, n; }
    ghost var before, done, whole := output[..], [], Cfb(Encryption(key), mode, iv[..], n, input);
    StartWriting(before, done);
    CfbWhole(Encryption(key), mode, iv[..], n, input);
    var at := 0;
    while at < |input|
      invariant 0 <= at <= |input| && |done| == at && n < 16 && ctx.EncryptsWith(key)
      invariant Written(output[..], before, done)
      invariant whole == Prepended(done, Cfb(Encryption(key), mode, iv[..], n, input[at..]))
    {
      CfbNext(Encryption(key), mode, iv[..], n, input, at, done);
      CfbOne(Encryption(key), mode, iv[..], n, input[at]);
      if n == 0 {
        var block := ctx.EncryptBlock(iv[..], key);
        var k := CopyBlock(iv, block);
      }
      ghost var v := iv[..];
      var c := input[at];
      var y := Xor(c, iv[n]);
      iv[n] := if mode == DecryptMode then c else y;
      assert iv[..] == v[n := if mode == EncryptMode then y else c];
      at := PutByte(output, at, y, before, done);
      done := done + [y];
      n := (n + 1) % 16;
    }
    CfbEnd(Encryption(key), mode, iv[..], n, input, done);
    status := StreamOk;
  }

  function Prepended(done: seq<bv8>, r: Feedback): Feedback { Feedback(r.iv, r.n, done + r.output) }

  lemma {:induction false} CfbWhole(cipher: Block -> Block, mode: Mode, iv: Block, n: nat, input: seq<bv8>)
    requires n < 16
    ensures Cfb(cipher, mode, iv, n, input) == Prepended([], Cfb(cipher, mode, iv, n, input[0..]))
  {}

  lemma {:induction false} CfbNext(cipher: Block -> Block, mode: Mode, iv: Block, n: nat, input: seq<bv8>, at: nat, done: seq<bv8>)
    requires n < 16 && at < |input|
    ensures var b := CfbByte(cipher, mode, iv, n, input[at]);
            Prepended(done, Cfb(cipher, mode, iv, n, input[at..]))
            == Prepended(done + [b.1], Cfb(cipher, mode, b.0, (n + 1) % 16, input[at + 1..]))
  {}

  lemma {:induction false} CfbEnd(cipher: Block -> Block, mode: Mode, iv: Block, n: nat, input: seq<bv8>, done: seq<bv8>)
    requires n < 16
    ensures Prepended(done, Cfb(cipher, mode, iv, n, input[|input|..])) == Feedback(iv, n, done)
  {}
}
