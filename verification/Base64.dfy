/** The Base64 codec, section 4 of RFC 4648. */
module Base64 {
  import opened Bytes
  import opened Division

  const LF: Byte := 10
  const CR: Byte := 13
  const SPACE: Byte := 32
  const PAD: Byte := 61

  // ----- the alphabet

  function EncMap(v: nat): (c: Byte)
    requires v < 64
  {
    if v < 26 then 65 + v else if v < 52 then 97 + (v - 26) else if v < 62 then 48 + (v - 52)
    else if v == 62 then 43 else 47
  }

  /** 64 for the padding character, 127 for anything outside the alphabet. */
  function DecMap(c: Byte): (v: nat)
    ensures v < 64 || v == 64 || v == 127
  {
    if 65 <= c <= 90 then c - 65 else if 97 <= c <= 122 then c - 97 + 26 else if 48 <= c <= 57 then c - 48 + 52
    else if c == 43 then 62 else if c == 47 then 63 else if c == PAD then 64 else 127
  }

  lemma {:induction false} MapsInverse(v: nat, c: Byte)
    requires v < 64
    ensures DecMap(EncMap(v)) == v
    ensures DecMap(c) < 64 ==> EncMap(DecMap(c)) == c
    ensures DecMap(c) == 64 <==> c == PAD
    ensures EncMap(v) != PAD && !IsBlank(EncMap(v))
  {}

  // ----- encoding

  function Quad(a: Byte, b: Byte, c: Byte): (s: seq<Byte>)
    ensures |s| == 4
  {
    [EncMap(a / 4), EncMap(a % 4 * 16 + b / 16), EncMap(b % 16 * 4 + c / 64), EncMap(c % 64)]
  }

  function Encoded(s: seq<Byte>): (t: seq<Byte>)
    ensures |t| == (|s| + 2) / 3 * 4
  {
    if |s| >= 3 then Quad(s[0], s[1], s[2]) + Encoded(s[3..])
    else if |s| == 2 then Quad(s[0], s[1], 0)[..3] + [PAD]
    else if |s| == 1 then Quad(s[0], 0, 0)[..2] + [PAD, PAD]
    else []
  }

  /** The alphabet of table 1 of RFC 4648. */
  lemma {:induction false} Alphabet(v: nat)
    requires v < 64
    ensures v < 26 ==> EncMap(v) == "ABCDEFGHIJKLMNOPQRSTUVWXYZ"[v] as int
    ensures 26 <= v < 52 ==> EncMap(v) == "abcdefghijklmnopqrstuvwxyz"[v - 26] as int
    ensures 52 <= v < 62 ==> EncMap(v) == "0123456789"[v - 52] as int
    ensures 62 <= v ==> EncMap(v) == "+/"[v - 62] as int
    ensures PAD == '=' as int
  {}

  /** Three bytes are one number of 24 bits, and so are the four digits of 6 bits that are written. */
  lemma {:induction false} GroupDigits(a: Byte, b: Byte, c: Byte) returns (v: seq<nat>)
    ensures |v| == 4 && (forall k :: 0 <= k < 4 ==> v[k] < 64)
    ensures Encoded([a, b, c]) == [EncMap(v[0]), EncMap(v[1]), EncMap(v[2]), EncMap(v[3])]
    ensures 262144 * v[0] + 4096 * v[1] + 64 * v[2] + v[3] == 65536 * (a as int) + 256 * (b as int) + (c as int)
  {
    hide EncMap;
    v := [a / 4, a % 4 * 16 + b / 16, b % 16 * 4 + c / 64, c % 64];
    assert [a, b, c][3..] == [] && Encoded([]) == [];
  }

  lemma {:induction false} VectorGroups()
    ensures Quad('f' as int, 'o' as int, 'o' as int) == ['Z' as int, 'm' as int, '9' as int, 'v' as int]
    ensures Quad('b' as int, 'a' as int, 'r' as int) == ['Y' as int, 'm' as int, 'F' as int, 'y' as int]
    ensures Encoded(['f' as int]) == ['Z' as int, 'g' as int, '=' as int, '=' as int]
    ensures Encoded(['f' as int, 'o' as int]) == ['Z' as int, 'm' as int, '8' as int, '=' as int]
    ensures Encoded(['b' as int]) == ['Y' as int, 'g' as int, '=' as int, '=' as int]
    ensures Encoded(['b' as int, 'a' as int]) == ['Y' as int, 'm' as int, 'E' as int, '=' as int]
  {}

  /** The test vectors of section 10 of RFC 4648. */
  lemma {:induction false} Vectors()
    ensures Encoded([]) == []
    ensures Encoded(['f' as int]) == ['Z' as int, 'g' as int, '=' as int, '=' as int]
    ensures Encoded(['f' as int, 'o' as int]) == ['Z' as int, 'm' as int, '8' as int, '=' as int]
    ensures Encoded(['f' as int, 'o' as int, 'o' as int]) == ['Z' as int, 'm' as int, '9' as int, 'v' as int]
    ensures Encoded(['f' as int, 'o' as int, 'o' as int] + ['b' as int]) == ['Z' as int, 'm' as int, '9' as int, 'v' as int] + ['Y' as int, 'g' as int, '=' as int, '=' as int]
    ensures Encoded(['f' as int, 'o' as int, 'o' as int] + ['b' as int, 'a' as int]) == ['Z' as int, 'm' as int, '9' as int, 'v' as int] + ['Y' as int, 'm' as int, 'E' as int, '=' as int]
    ensures Encoded(['f' as int, 'o' as int, 'o' as int] + ['b' as int, 'a' as int, 'r' as int])
            == ['Z' as int, 'm' as int, '9' as int, 'v' as int] + ['Y' as int, 'm' as int, 'F' as int, 'y' as int]
  {
    hide Quad;
    VectorGroups();
    var foo: seq<Byte> := ['f' as int, 'o' as int, 'o' as int];
    FirstGroup('f' as int, 'o' as int, 'o' as int, []);
    FirstGroup('f' as int, 'o' as int, 'o' as int, ['b' as int]);
    FirstGroup('f' as int, 'o' as int, 'o' as int, ['b' as int, 'a' as int]);
    FirstGroup('f' as int, 'o' as int, 'o' as int, ['b' as int, 'a' as int, 'r' as int]);
    FirstGroup('b' as int, 'a' as int, 'r' as int, []);
    assert forall s: seq<Byte> :: s + [] == s;
  }

  lemma {:induction false} FirstGroup(a: Byte, b: Byte, c: Byte, rest: seq<Byte>)
    ensures Encoded([a, b, c] + rest) == Quad(a, b, c) + Encoded(rest)
  {
    hide EncMap;
    assert ([a, b, c] + rest)[3..] == rest;
  }

  datatype Status = Success | InvalidCharacter | BufferTooSmall

  method PutQuad(dst: array<Byte>, p: nat, a: Byte, b: Byte, c: Byte, ghost before: seq<Byte>, ghost done: seq<Byte>)
    returns (end: nat)
    requires Written(dst[..], before, done) && p == |done| && p + 4 <= dst.Length
    modifies dst
    ensures end == p + 4 && Written(dst[..], before, done + Quad(a, b, c))
  {
    hide Written, EncMap;
    end := CopyBytes(dst, p, Quad(a, b, c), before, done);
  }

  /** The last one or two bytes and the padding. */
  method PutTail(dst: array<Byte>, p: nat, src: seq<Byte>, ghost before: seq<Byte>, ghost done: seq<Byte>)
    returns (end: nat)
    requires 0 < |src| < 3
    requires Written(dst[..], before, done) && p == |done| && p + 4 <= dst.Length
    modifies dst
    ensures end == p + 4 && Written(dst[..], before, done + Encoded(src))
  {
    hide Written, EncMap;
    var c2 := if 1 < |src| then src[1] else 0;
    var quad := Quad(src[0], c2, 0);
    var third := if 1 < |src| then quad[2] else PAD;
    end := CopyBytes(dst, p, quad[..2], before, done);
    end := PutByte(dst, end, third, before, done + quad[..2]);
    end := PutByte(dst, end, PAD, before, done + quad[..2] + [third]);
    assert done + Encoded(src) == done + quad[..2] + [third] + [PAD] by {
      assert Encoded(src) == quad[..2] + [third] + [PAD];
    }
  }

  method PutAll(dst: array<Byte>, src: seq<Byte>) returns (p: nat)
    requires |Encoded(src)| <= dst.Length
    modifies dst
    ensures p == |Encoded(src)| && Written(dst[..], old(dst[..]), Encoded(src))
  {
    hide Written, Quad, Encoded;
    EncodedNothing();
    var n := |src| / 3 * 3;
    ghost var before, done := dst[..], [];
    WrittenNothing(before);
    var i := 0;
    p := 0;
    assert src[0..] == src && done + Encoded(src) == Encoded(src);
    while i < n
      invariant 0 <= i <= n && i % 3 == 0 && p == |done|
      invariant Written(dst[..], before, done) && done + Encoded(src[i..]) == Encoded(src)
    {
      EncodedStep(src, i);
      ghost var rest := Encoded(src[i + 3..]);
      assert done + (Quad(src[i], src[i + 1], src[i + 2]) + rest) == done + Quad(src[i], src[i + 1], src[i + 2]) + rest;
      p := PutQuad(dst, p, src[i], src[i + 1], src[i + 2], before, done);
      done := done + Quad(src[i], src[i + 1], src[i + 2]);
      i := i + 3;
    }
    if i < |src| {
      p := PutTail(dst, p, src[i..], before, done);
    } else {
      assert done + Encoded(src[i..]) == done;
    }
  }

  /** Also stores a terminating zero; sizeMax is the largest value of the size type. */
  method Encode(dst: array<Byte>, src: seq<Byte>, sizeMax: nat) returns (status: Status, olen: nat)
    requires dst.Length <= sizeMax && |src| <= sizeMax
    modifies dst
    ensures status == if src != [] && dst.Length < |Encoded(src)| + 1 then BufferTooSmall else Success
    ensures status == Success && src != [] ==> Written(dst[..], old(dst[..]), Encoded(src) + [0])
    ensures status == Success ==> olen == |Encoded(src)|
    ensures status == BufferTooSmall ==> olen == if |Encoded(src)| < sizeMax then |Encoded(src)| + 1 else sizeMax
    ensures status == BufferTooSmall || src == [] ==> dst[..] == old(dst[..])
  {
    hide Written, Quad, Encoded;
    EncodedNothing();
    if |src| == 0 { return Success, 0; }
    var n := |src| / 3 + if |src| % 3 != 0 then 1 else 0;
    if n > (sizeMax - 1) / 4 { return BufferTooSmall, sizeMax; }
    n := n * 4;
    if dst.Length < n + 1 { return BufferTooSmall, n + 1; }
    ghost var before := dst[..];
    var p := PutAll(dst, src);
    olen := p;
    p := PutByte(dst, p, 0, before, Encoded(src));
    status := Success;
  }

  lemma {:induction false} EncodedNothing()
    ensures Encoded([]) == []
  {}

  lemma {:induction false} EncodedStep(src: seq<Byte>, i: nat)
    requires i + 3 <= |src|
    ensures Encoded(src[i..]) == Quad(src[i], src[i + 1], src[i + 2]) + Encoded(src[i + 3..])
  {}

  // ----- the text to decode

  predicate IsBlank(c: Byte) { c == SPACE || c == CR || c == LF }

  /** What is left when spaces and line breaks are taken out. */
  function Symbols(t: seq<Byte>): seq<Byte> {
    if t == [] then [] else (if IsBlank(t[0]) then [] else [t[0]]) + Symbols(t[1..])
  }

  /** A line break starts at i. */
  predicate Eol(t: seq<Byte>, i: nat) {
    i < |t| && (t[i] == LF || (t[i] == CR && i + 1 < |t| && t[i + 1] == LF))
  }

  /** A space stands only at the end of a line or of the text, a carriage return only in front of a line feed. */
  predicate LayoutAt(t: seq<Byte>, i: nat)
    requires i < |t|
  {
    && (t[i] == SPACE ==> i + 1 == |t| || t[i + 1] == SPACE || Eol(t, i + 1))
    && (t[i] == CR ==> Eol(t, i))
  }

  predicate Layout(t: seq<Byte>, from: nat) { forall i :: from <= i < |t| ==> LayoutAt(t, i) }

  /** Symbols of the alphabet, then at most two padding characters, of which `pads` have been seen. */
  predicate Proper(s: seq<Byte>, pads: nat) {
    s == []
    || (if s[0] == PAD then pads < 2 && Proper(s[1..], pads + 1) else DecMap(s[0]) < 64 && pads == 0 && Proper(s[1..], 0))
  }

  function Pads(s: seq<Byte>): nat {
    if s == [] then 0 else (if s[0] == PAD then 1 else 0) + Pads(s[1..])
  }

  predicate IsLetter(c: Byte) {
    || 'A' as int <= c <= 'Z' as int || 'a' as int <= c <= 'z' as int || '0' as int <= c <= '9' as int
    || c == '+' as int || c == '/' as int
  }

  /** The first k symbols are letters of the alphabet and the others, two at most, equal signs. */
  predicate Shape(s: seq<Byte>, k: nat) {
    && k <= |s| <= k + 2
    && (forall i :: 0 <= i < k ==> IsLetter(s[i])) && forall i :: k <= i < |s| ==> s[i] == '=' as int
  }

  lemma {:induction false} PadsOnly(s: seq<Byte>, pads: nat)
    requires 0 < pads <= 2
    ensures Proper(s, pads) <==> |s| + pads <= 2 && forall i :: 0 <= i < |s| ==> s[i] == PAD
    decreases |s|
  {
    if s != [] {
      if pads < 2 { PadsOnly(s[1..], pads + 1); }
      assert forall i :: 1 <= i < |s| ==> s[i] == s[1..][i - 1];
    }
  }

  lemma {:induction false} LetterMap(c: Byte)
    ensures DecMap(c) < 64 <==> IsLetter(c)
  {}

  lemma {:induction false} ProperHasShape(s: seq<Byte>) returns (k: nat)
    requires Proper(s, 0)
    ensures Shape(s, k)
    decreases |s|
  {
    hide DecMap, IsLetter;
    k := 0;
    if s != [] {
      LetterMap(s[0]);
      if s[0] == PAD {
        PadsOnly(s[1..], 1);
        assert forall i :: 1 <= i < |s| ==> s[i] == s[1..][i - 1];
      } else {
        k := ProperHasShape(s[1..]);
        assert forall i :: 1 <= i < |s| ==> s[i] == s[1..][i - 1];
        k := k + 1;
      }
    }
  }

  lemma {:induction false} ShapeIsProper(s: seq<Byte>, k: nat)
    requires Shape(s, k)
    ensures Proper(s, 0)
    decreases |s|
  {
    hide DecMap, IsLetter;
    if s != [] {
      LetterMap(s[0]);
      LetterMap(PAD);
      if k == 0 {
        PadsOnly(s[1..], 1);
      } else {
        assert DecMap(s[0]) < 64 && s[0] != PAD by { PadNoLetter(); }
        ShapeIsProper(s[1..], k - 1);
      }
    }
  }

  lemma {:induction false} PadNoLetter()
    ensures !IsLetter(PAD)
  {}

  /** What the decoder takes as symbols: letters and then at most two equal signs. Their number may be any. */
  lemma {:induction false} ProperExactly(s: seq<Byte>)
    ensures Proper(s, 0) <==> exists k :: Shape(s, k)
  {
    if Proper(s, 0) { var k := ProperHasShape(s); }
    if k :| Shape(s, k) { ShapeIsProper(s, k); }
  }

  predicate IsBase64(t: seq<Byte>) { Layout(t, 0) && Proper(Symbols(t), 0) }

  lemma {:induction false} SymbolsStep(t: seq<Byte>, i: nat)
    requires i < |t|
    ensures Symbols(t[i..]) == (if IsBlank(t[i]) then [] else [t[i]]) + Symbols(t[i + 1..])
    ensures Layout(t, i) <==> LayoutAt(t, i) && Layout(t, i + 1)
  {}

  lemma {:induction false} SpaceRun(t: seq<Byte>, i: nat, j: nat)
    requires i <= j <= |t| && forall k :: i <= k < j ==> t[k] == SPACE
    requires j < |t| ==> t[j] != SPACE
    ensures Symbols(t[i..]) == Symbols(t[j..])
    ensures Layout(t, i) <==> Layout(t, j) && (i == j || j == |t| || Eol(t, j))
    decreases j - i
  {
    if i < j {
      SymbolsStep(t, i);
      SpaceRun(t, i + 1, j);
    }
  }

  method SkipSpaces(t: seq<Byte>, start: nat) returns (i: nat)
    requires start <= |t|
    ensures start <= i <= |t| && (i < |t| ==> t[i] != SPACE)
    ensures forall k :: start <= k < i ==> t[k] == SPACE
  {
    i := start;
    while i < |t| && t[i] == SPACE
      invariant start <= i <= |t| && forall k :: start <= k < i ==> t[k] == SPACE
    {
      i := i + 1;
    }
  }

  /** The first pass of the decoder: n symbols, of which j are padding. */
  method Check(src: seq<Byte>) returns (ok: bool, n: nat, j: nat)
    ensures ok <==> IsBase64(src)
    ensures ok ==> n == |Symbols(src)| && j == Pads(Symbols(src))
  {
    hide Layout, LayoutAt, Symbols, DecMap, Eol, Proper, Pads;
    n, j := 0, 0;
    var i := 0;
    assert src[0..] == src;
    while i < |src|
      invariant i <= |src| && j <= 2
      invariant IsBase64(src) <==> Layout(src, i) && Proper(Symbols(src[i..]), j)
      invariant n + |Symbols(src[i..])| == |Symbols(src)| && j + Pads(Symbols(src[i..])) == Pads(Symbols(src))
    {
      var start := i;
      i := SkipSpaces(src, i);
      SpaceRun(src, start, i);
      if i == |src| { break; }
      SymbolsStep(src, i);
      EolAt(src, i);
      ProperStep(src[i], Symbols(src[i + 1..]), j);
      var c := src[i];
      if |src| - i >= 2 && c == CR && src[i + 1] == LF { i := i + 1; continue; }
      if c == LF { i := i + 1; continue; }
      if i > start { return false, n, j; }
      if c == PAD {
        j := j + 1;
        if j > 2 { return false, n, j; }
      }
      if c > 127 || DecMap(c) == 127 {
        BadSymbol(c);
        return false, n, j;
      }
      BadSymbol(c);
      if DecMap(c) < 64 && j != 0 { return false, n, j; }
      n := n + 1;
      i := i + 1;
    }
    NothingLeft(src);
    return true, n, j;
  }

  lemma {:induction false} ProperStep(c: Byte, rest: seq<Byte>, j: nat)
    ensures Proper([c] + rest, j)
            <==> if c == PAD then j < 2 && Proper(rest, j + 1) else DecMap(c) < 64 && j == 0 && Proper(rest, 0)
    ensures Pads([c] + rest) == (if c == PAD then 1 else 0) + Pads(rest)
    ensures [] + rest == rest
  {}

  lemma {:induction false} EolAt(t: seq<Byte>, i: nat)
    requires i < |t|
    ensures Eol(t, i) <==> t[i] == LF || (t[i] == CR && i + 1 < |t| && t[i + 1] == LF)
    ensures t[i] == LF ==> LayoutAt(t, i)
    ensures t[i] == CR ==> (LayoutAt(t, i) <==> Eol(t, i))
    ensures t[i] != CR && t[i] != SPACE ==> LayoutAt(t, i)
  {}

  lemma {:induction false} BadSymbol(c: Byte)
    ensures DecMap(c) == 64 <==> c == PAD
    ensures c > 127 ==> DecMap(c) == 127
    ensures IsBlank(c) ==> DecMap(c) == 127
  {}

  lemma {:induction false} NothingLeft(t: seq<Byte>)
    ensures Symbols(t[|t|..]) == [] && Layout(t, |t|)
    ensures forall j :: Proper([], j) && Pads([]) == 0
  {}

  // ----- decoding

  /** The number that symbols stand for, six bits each; padding counts as zero bits. */
  function Value(g: seq<Byte>): (v: nat) {
    if g == [] then 0 else Value(g[..|g| - 1]) * 64 + DecMap(g[|g| - 1]) % 64
  }

  /** The first `keep` bytes of a group of four symbols. */
  function Unpacked(v: nat, keep: int): (s: seq<Byte>)
    ensures |s| == if keep <= 0 then 0 else if keep <= 3 then keep else 3
  {
    if keep <= 0 then []
    else if keep == 1 then [v / 0x1_0000 % 256]
    else if keep == 2 then [v / 0x1_0000 % 256, v / 256 % 256]
    else [v / 0x1_0000 % 256, v / 256 % 256, v % 256]
  }

  /** The bytes of all complete groups; every padding character seen makes one byte less of its group and
      of the following ones. Symbols behind the last complete group stand for nothing. */
  function Decoded(s: seq<Byte>, keep: int): seq<Byte> {
    if |s| < 4 then []
    else
      var k := keep - Pads(s[..4]);
      Unpacked(Value(s[..4]), k) + Decoded(s[4..], k)
  }

  function DecodedText(t: seq<Byte>): seq<Byte> { Decoded(Symbols(t), 3) }

  /** What the first pass says the output needs. */
  function DecodedSize(n: nat, pads: nat): int { (6 * n + 7) / 8 - pads }

  /** The accumulator is 32 bits wide; the bits that count are never pushed out. */
  lemma {:induction false} ShiftIn(x: nat, n: nat, v: nat)
    requires n < 4 && v < 64
    ensures (x * 64 + v) % 0x1_0000_0000 % Pow64(n + 1) == x % Pow64(n) * 64 + v
  {
    var y, t := (x * 64 + v) % 0x1_0000_0000, (x * 64 + v) / 0x1_0000_0000;
    Pow64Values();
    if n == 0 {
      LowPart(y, 64, x - 0x400_0000 * t, v);
    } else if n == 1 {
      LowPart(y, 4096, x / 64 - 0x10_0000 * t, x % 64 * 64 + v);
    } else if n == 2 {
      LowPart(y, 262144, x / 4096 - 0x4000 * t, x % 4096 * 64 + v);
    } else {
      LowPart(y, 16777216, x / 262144 - 0x100 * t, x % 262144 * 64 + v);
    }
  }

  lemma {:induction false} SameBytes(x: nat, v: nat, keep: int)
    requires x % 16777216 == v
    ensures Unpacked(x, keep) == Unpacked(v, keep)
  {
    var q := x / 16777216;
    assert x / 0x1_0000 == q * 256 + v / 0x1_0000;
    assert x / 256 == q * 65536 + v / 256;
    LowPart(x / 0x1_0000, 256, q + v / 0x1_0000 / 256, v / 0x1_0000 % 256);
    LowPart(x / 256, 256, q * 256 + v / 256 / 256, v / 256 % 256);
    LowPart(x, 256, q * 65536 + v / 256, v % 256);
  }

  lemma {:induction false} ValueStep(g: seq<Byte>, c: Byte)
    ensures Value(g + [c]) == Value(g) * 64 + DecMap(c) % 64
    ensures Pads(g + [c]) == Pads(g) + if c == PAD then 1 else 0
  {
    assert (g + [c])[..|g|] == g;
    PadsConcat(g, [c]);
  }

  lemma {:induction false} PadsConcat(s: seq<Byte>, t: seq<Byte>)
    ensures Pads(s + t) == Pads(s) + Pads(t)
    decreases |s|
  {
    if s == [] {
      assert s + t == t;
    } else {
      assert (s + t)[1..] == s[1..] + t;
      PadsConcat(s[1..], t);
    }
  }

  lemma {:induction false} GroupDone(g: seq<Byte>, rest: seq<Byte>, keep: int)
    requires |g| == 4
    ensures Decoded(g + rest, keep) == Unpacked(Value(g), keep - Pads(g)) + Decoded(rest, keep - Pads(g))
  {}

  /** The second pass. */
  method Unpack(dst: array<Byte>, src: seq<Byte>) returns (olen: nat)
    requires |DecodedText(src)| <= dst.Length
    modifies dst
    ensures olen == |DecodedText(src)| && Written(dst[..], old(dst[..]), DecodedText(src))
  {
    hide Written, Decoded, Value, Pads, Symbols, Pow64, Unpacked, DecMap;
    ghost var before, done, g, keep := dst[..], [], [], 3;
    var j, n, x: nat, p, i := 3, 0, 0, 0, 0;
    WrittenNothing(before);
    UnpackStart(src);
    while i < |src|
      invariant 0 <= i <= |src| && 0 <= n == |g| < 4 && p == |done| && j == keep - Pads(g)
      invariant x % Pow64(n) == Value(g)
      invariant Written(dst[..], before, done)
      invariant DecodedText(src) == done + Decoded(g + Symbols(src[i..]), keep)
    {
      var c := src[i];
      SymbolsStep(src, i);
      i := i + 1;
      if c == CR || c == LF || c == SPACE {
        assert [] + Symbols(src[i..]) == Symbols(src[i..]);
        continue;
      }
      BadSymbol(c);
      if DecMap(c) == 64 { j := j - 1; }
      ShiftIn(x, n, DecMap(c) % 64);
      x := (x * 64 + DecMap(c) % 64) % 0x1_0000_0000;
      ValueStep(g, c);
      assert g + ([c] + Symbols(src[i..])) == g + [c] + Symbols(src[i..]);
      g := g + [c];
      n := n + 1;
      if n == 4 {
        n := 0;
        GroupDone(g, Symbols(src[i..]), keep);
        Pow64Values();
        SameBytes(x, Value(g), j);
        assert done + (Unpacked(x, j) + Decoded(Symbols(src[i..]), j)) == done + Unpacked(x, j) + Decoded(Symbols(src[i..]), j);
        p := PutKept(dst, p, x, j, before, done);
        done, g, keep := done + Unpacked(x, j), [], j;
        UnpackGroup(src, i, x);
      }
    }
    UnpackEnd(src, g, keep, done);
    olen := p;
  }

  lemma {:induction false} UnpackStart(src: seq<Byte>)
    ensures [] + Decoded([] + Symbols(src[0..]), 3) == DecodedText(src)
    ensures Value([]) == 0 && Pads([]) == 0 && 0 % Pow64(0) == 0
  {
    assert src[0..] == src && [] + Symbols(src) == Symbols(src);
  }

  lemma {:induction false} UnpackGroup(src: seq<Byte>, i: nat, x: nat)
    requires i <= |src|
    ensures [] + Symbols(src[i..]) == Symbols(src[i..])
    ensures Value([]) == 0 && Pads([]) == 0 && x % Pow64(0) == 0
  {}

  lemma {:induction false} UnpackEnd(src: seq<Byte>, g: seq<Byte>, keep: int, done: seq<Byte>)
    requires |g| < 4
    ensures done + Decoded(g + Symbols(src[|src|..]), keep) == done
  {}

  method PutKept(dst: array<Byte>, p: nat, x: nat, j: int, ghost before: seq<Byte>, ghost done: seq<Byte>)
    returns (end: nat)
    requires Written(dst[..], before, done) && p == |done| && p + |Unpacked(x, j)| <= dst.Length
    modifies dst
    ensures end == p + |Unpacked(x, j)| && Written(dst[..], before, done + Unpacked(x, j))
  {
    hide Written;
    end := p;
    ghost var now := done;
    if j > 0 {
      end := PutByte(dst, end, x / 0x1_0000 % 256, before, now);
      now := now + [x / 0x1_0000 % 256];
    }
    if j > 1 {
      end := PutByte(dst, end, x / 256 % 256, before, now);
      now := now + [x / 256 % 256];
    }
    if j > 2 {
      end := PutByte(dst, end, x % 256, before, now);
      now := now + [x % 256];
    }
    assert now == done + Unpacked(x, j);
  }

  // ----- sizes

  lemma {:induction false} AllPads(s: seq<Byte>, pads: nat)
    requires Proper(s, pads) && 0 < pads
    ensures |s| == Pads(s) && |s| + pads <= if s == [] then pads else 2
    decreases |s|
  {}

  lemma {:induction false} ProperFour(s: seq<Byte>)
    requires Proper(s, 0) && |s| >= 4
    ensures Pads(s) == Pads(s[..4]) + Pads(s[4..])
    ensures Pads(s[..4]) == 0 ==> Proper(s[4..], 0)
    ensures Pads(s[..4]) > 0 ==> Pads(s[..4]) <= 2 && |s| - 4 == Pads(s[4..]) <= 2 - Pads(s[..4])
  {
    hide DecMap;
    assert s == s[..4] + s[4..];
    PadsConcat(s[..4], s[4..]);
    ProperDrop(s, 4);
  }

  /** Behind k symbols. */
  lemma {:induction false} ProperDrop(s: seq<Byte>, k: nat)
    requires Proper(s, 0) && k <= |s|
    ensures Pads(s[..k]) <= 2 && Proper(s[k..], Pads(s[..k]))
    ensures Pads(s[..k]) > 0 ==> |s| - k == Pads(s[k..]) <= 2 - Pads(s[..k])
    decreases k
  {
    hide DecMap;
    if k == 0 {
      assert s[0..] == s;
    } else {
      ProperDrop(s, k - 1);
      assert s[..k] == s[..k - 1] + [s[k - 1]] && s[k - 1..] == [s[k - 1]] + s[k..];
      PadsConcat(s[..k - 1], [s[k - 1]]);
      assert Pads([s[k - 1]]) == if s[k - 1] == PAD then 1 else 0;
      ProperStep(s[k - 1], s[k..], Pads(s[..k - 1]));
      if Pads(s[..k]) > 0 { AllPads(s[k..], Pads(s[..k])); }
    }
  }

  /** The symbols behind the last complete group. */
  function Leftover(s: seq<Byte>): seq<Byte> { s[|s| / 4 * 4..] }

  /** The first pass announces enough room, and exactly the room that is used when nothing but padding stands
      behind the last complete group. */
  lemma {:induction false} SizeExact(s: seq<Byte>)
    requires Proper(s, 0)
    ensures |Decoded(s, 3)| <= DecodedSize(|s|, Pads(s))
    ensures |Decoded(s, 3)| == DecodedSize(|s|, Pads(s)) <==> Pads(Leftover(s)) == |Leftover(s)|
    decreases |s|
  {
    hide Proper, Value, Unpacked;
    if |s| >= 4 {
      ProperFour(s);
      assert Leftover(s) == Leftover(s[4..]);
      if Pads(s[..4]) == 0 {
        SizeExact(s[4..]);
      } else {
        assert |s[4..]| < 4 && Leftover(s[4..]) == s[4..];
      }
    } else {
      assert Leftover(s) == s;
      ProperDropAll(s);
    }
  }

  lemma {:induction false} ProperDropAll(s: seq<Byte>)
    requires Proper(s, 0)
    ensures Pads(s) <= 2 && Pads(s) <= |s|
  {
    ProperDrop(s, |s|);
    assert s[..|s|] == s;
    PadsBound(s);
  }

  lemma {:induction false} PadsBound(s: seq<Byte>)
    ensures Pads(s) <= |s|
    decreases |s|
  {
    if s != [] { PadsBound(s[1..]); }
  }

  method Decode(dst: array<Byte>, src: seq<Byte>) returns (status: Status, olen: nat)
    modifies dst
    ensures status == InvalidCharacter <==> !IsBase64(src)
    ensures status == Success ==> olen == |DecodedText(src)| && Written(dst[..], old(dst[..]), DecodedText(src))
    ensures status == BufferTooSmall <==>
              IsBase64(src) && Symbols(src) != [] && dst.Length < DecodedSize(|Symbols(src)|, Pads(Symbols(src)))
    ensures status == BufferTooSmall ==> olen == DecodedSize(|Symbols(src)|, Pads(Symbols(src)))
    ensures status != Success ==> dst[..] == old(dst[..])
  {
    hide IsBase64, Written, Symbols, Pads, Proper;
    var ok, n, j := Check(src);
    if !ok { return InvalidCharacter, 0; }
    IsProper(src);
    SizeExact(Symbols(src));
    if n == 0 {
      WrittenNothing(dst[..]);
      return Success, 0;
    }
    n := 6 * (n / 8) + (6 * (n % 8) + 7) / 8;
    var size := n - j;
    if dst.Length < size { return BufferTooSmall, size; }
    olen := Unpack(dst, src);
    status := Success;
  }

  lemma {:induction false} IsProper(t: seq<Byte>)
    requires IsBase64(t)
    ensures Proper(Symbols(t), 0)
  {}

  // ----- round trip

  lemma {:induction false} SixBits(a: Byte, b: Byte, c: Byte)
    ensures ((a / 4 * 64 + (a % 4 * 16 + b / 16)) * 64 + (b % 16 * 4 + c / 64)) * 64 + c % 64 == a * 0x1_0000 + b * 256 + c
  {}

  lemma {:induction false} EncodedValue(v0: nat, v1: nat, v2: nat, v3: nat)
    requires v0 < 64 && v1 < 64 && v2 < 64 && v3 < 64
    ensures var q := [EncMap(v0), EncMap(v1), EncMap(v2), EncMap(v3)];
            Value(q) == ((v0 * 64 + v1) * 64 + v2) * 64 + v3 && Pads(q) == 0
    ensures var q := [EncMap(v0), EncMap(v1), EncMap(v2), PAD]; Value(q) == ((v0 * 64 + v1) * 64 + v2) * 64 && Pads(q) == 1
    ensures var q := [EncMap(v0), EncMap(v1), PAD, PAD]; Value(q) == (v0 * 64 + v1) * 4096 && Pads(q) == 2
  {
    hide EncMap, DecMap, Value, Pads;
    MapsInverse(v0, PAD);
    MapsInverse(v1, 0);
    MapsInverse(v2, 0);
    MapsInverse(v3, 0);
    FourValue([EncMap(v0), EncMap(v1), EncMap(v2), EncMap(v3)]);
    FourValue([EncMap(v0), EncMap(v1), EncMap(v2), PAD]);
    FourValue([EncMap(v0), EncMap(v1), PAD, PAD]);
  }

  lemma {:induction false} QuadValue(a: Byte, b: Byte, c: Byte)
    ensures Value(Quad(a, b, c)) == a * 0x1_0000 + b * 256 + c && Pads(Quad(a, b, c)) == 0
  {
    hide EncMap, Value, Pads;
    EncodedValue(a / 4, a % 4 * 16 + b / 16, b % 16 * 4 + c / 64, c % 64);
    SixBits(a, b, c);
  }

  lemma {:induction false} PairValue(a: Byte, b: Byte)
    ensures var q := Quad(a, b, 0)[..3] + [PAD]; Value(q) == a * 0x1_0000 + b * 256 && Pads(q) == 1
  {
    hide EncMap, Value, Pads;
    EncodedValue(a / 4, a % 4 * 16 + b / 16, b % 16 * 4, 0);
    SixBits(a, b, 0);
    var q := Quad(a, b, 0)[..3] + [PAD];
    assert q == [q[0], q[1], q[2], PAD];
  }

  lemma {:induction false} SingleValue(a: Byte)
    ensures var q := Quad(a, 0, 0)[..2] + [PAD, PAD]; Value(q) == a * 0x1_0000 && Pads(q) == 2
  {
    hide EncMap, Value, Pads;
    EncodedValue(a / 4, a % 4 * 16, 0, 0);
    SixBits(a, 0, 0);
    var q := Quad(a, 0, 0)[..2] + [PAD, PAD];
    assert q == [q[0], q[1], PAD, PAD];
  }

  lemma {:induction false} FourValue(q: seq<Byte>)
    requires |q| == 4
    ensures Value(q) == ((DecMap(q[0]) % 64 * 64 + DecMap(q[1]) % 64) * 64 + DecMap(q[2]) % 64) * 64 + DecMap(q[3]) % 64
    ensures Pads(q) == (if q[0] == PAD then 1 else 0) + (if q[1] == PAD then 1 else 0)
                       + (if q[2] == PAD then 1 else 0) + (if q[3] == PAD then 1 else 0)
  {
    hide DecMap;
    ValueStep([], q[0]);
    ValueStep([q[0]], q[1]);
    ValueStep([q[0], q[1]], q[2]);
    ValueStep([q[0], q[1], q[2]], q[3]);
    assert q == [q[0], q[1], q[2]] + [q[3]] && [q[0], q[1], q[2]] == [q[0], q[1]] + [q[2]] && [q[0], q[1]] == [q[0]] + [q[1]];
    assert [] + [q[0]] == [q[0]];
  }

  lemma {:induction false} UnpackedBytes(a: Byte, b: Byte, c: Byte)
    ensures var v := a * 0x1_0000 + b * 256 + c;
            Unpacked(v, 3) == [a, b, c] && Unpacked(v, 2) == [a, b] && Unpacked(v, 1) == [a]
  {
    var v := a * 0x1_0000 + b * 256 + c;
    LowPart(v, 0x1_0000, a, b * 256 + c);
    LowPart(v, 256, a * 256 + b, c);
    LowPart(a * 256 + b, 256, a, b);
  }

  lemma {:induction false} DecodedEncoded(s: seq<Byte>)
    ensures Decoded(Encoded(s), 3) == s
    decreases |s|
  {
    hide Quad, Value, Pads, Unpacked;
    if |s| >= 3 {
      var q := Quad(s[0], s[1], s[2]);
      GroupDone(q, Encoded(s[3..]), 3);
      QuadValue(s[0], s[1], s[2]);
      UnpackedBytes(s[0], s[1], s[2]);
      DecodedEncoded(s[3..]);
      assert s == [s[0], s[1], s[2]] + s[3..];
    } else if |s| == 2 {
      LastGroup(Quad(s[0], s[1], 0)[..3] + [PAD]);
      PairValue(s[0], s[1]);
      UnpackedBytes(s[0], s[1], 0);
    } else if |s| == 1 {
      LastGroup(Quad(s[0], 0, 0)[..2] + [PAD, PAD]);
      SingleValue(s[0]);
      UnpackedBytes(s[0], 0, 0);
    }
  }

  lemma {:induction false} LastGroup(q: seq<Byte>)
    requires |q| == 4
    ensures Decoded(q, 3) == Unpacked(Value(q), 3 - Pads(q))
  {
    assert q + [] == q;
    GroupDone(q, [], 3);
  }

  lemma {:induction false} NoBlanks(t: seq<Byte>)
    requires forall c <- t :: !IsBlank(c)
    ensures Symbols(t) == t && Layout(t, 0)
    decreases |t|
  {
    forall i | 0 <= i < |t| ensures LayoutAt(t, i) { assert t[i] in t; }
    if t != [] {
      assert t[0] in t;
      NoBlanks(t[1..]);
    }
  }

  lemma {:induction false} ProperEncoded(s: seq<Byte>)
    ensures Proper(Encoded(s), 0) && forall c <- Encoded(s) :: !IsBlank(c)
    decreases |s|
  {
    hide EncMap, DecMap;
    forall v: nat | v < 64 ensures DecMap(EncMap(v)) == v && EncMap(v) != PAD && !IsBlank(EncMap(v)) { MapsInverse(v, PAD); }
    if |s| >= 3 {
      ProperEncoded(s[3..]);
      ProperQuad(Quad(s[0], s[1], s[2]), Encoded(s[3..]));
    } else if |s| > 0 {
      ProperTail(Encoded(s));
    }
  }

  lemma {:induction false} ProperQuad(q: seq<Byte>, rest: seq<Byte>)
    requires |q| == 4 && Proper(rest, 0) && DecMap(q[0]) < 64 && DecMap(q[1]) < 64 && DecMap(q[2]) < 64 && DecMap(q[3]) < 64
    ensures Proper(q + rest, 0)
  {
    hide DecMap, Proper;
    MapsInverse(0, q[0]);
    MapsInverse(0, q[1]);
    MapsInverse(0, q[2]);
    MapsInverse(0, q[3]);
    var r3 := [q[3]] + rest;
    var r2 := [q[2]] + r3;
    var r1 := [q[1]] + r2;
    ProperStep(q[3], rest, 0);
    ProperStep(q[2], r3, 0);
    ProperStep(q[1], r2, 0);
    ProperStep(q[0], r1, 0);
    assert q + rest == [q[0]] + r1;
  }

  lemma {:induction false} ProperTail(t: seq<Byte>)
    requires |t| == 4 && DecMap(t[0]) < 64 && DecMap(t[1]) < 64 && t[3] == PAD && (t[2] == PAD || DecMap(t[2]) < 64)
    ensures Proper(t, 0)
  {
    hide DecMap;
    MapsInverse(0, t[0]);
    MapsInverse(0, t[1]);
    MapsInverse(0, t[2]);
    var p := if t[2] == PAD then 1 else 0;
    ProperStep(t[3], [], p);
    ProperStep(t[2], [t[3]] + [], 0);
    ProperStep(t[1], [t[2]] + ([t[3]] + []), 0);
    ProperStep(t[0], [t[1]] + ([t[2]] + ([t[3]] + [])), 0);
    assert t == [t[0]] + ([t[1]] + ([t[2]] + ([t[3]] + [])));
  }

  /** Decoding an encoded text gives the bytes back, however it has been laid out with line breaks and
      spaces in front of them. */
  lemma {:induction false} RoundTrip(s: seq<Byte>, t: seq<Byte>)
    requires Layout(t, 0) && Symbols(t) == Encoded(s)
    ensures IsBase64(t) && DecodedText(t) == s
    ensures DecodedSize(|Symbols(t)|, Pads(Symbols(t))) == |s|
  {
    hide Decoded, Layout, Symbols, Encoded, Proper, Pads;
    ProperEncoded(s);
    DecodedEncoded(s);
    SizeExact(Encoded(s));
    assert Leftover(Encoded(s)) == [] by { EncodedGroups(s); }
    NoPads();
  }

  lemma {:induction false} NoPads()
    ensures Pads([]) == 0
  {}

  /** In particular the encoded text itself is well laid out. */
  lemma {:induction false} EncodedLayout(s: seq<Byte>)
    ensures Layout(Encoded(s), 0) && Symbols(Encoded(s)) == Encoded(s)
  {
    hide Layout, Symbols, Encoded;
    ProperEncoded(s);
    NoBlanks(Encoded(s));
  }

  lemma {:induction false} EncodedGroups(s: seq<Byte>)
    ensures |Encoded(s)| % 4 == 0 && Leftover(Encoded(s)) == []
  {}

  /** Symbols behind the last complete group are accepted and stand for nothing, although room is announced
      for them: the text is two letters. */
  lemma {:induction false} IncompleteGroup()
    ensures var t := [65, 65];
            IsBase64(t) && DecodedText(t) == [] && DecodedSize(|Symbols(t)|, Pads(Symbols(t))) == 2
  {
    var t := [65, 65];
    NoBlanks(t);
    assert t[1..] == [65] && t[1..][1..] == [];
  }

  // ----- which texts are encodings

  /** Complete groups only, and no bits set in the part of the last group that padding cuts off. */
  predicate Canonical(s: seq<Byte>) {
    && |s| % 4 == 0
    && (s != [] ==>
          var n := |s|;
          && (s[n - 1] == PAD && s[n - 2] != PAD ==> DecMap(s[n - 2]) % 4 == 0)
          && (s[n - 2] == PAD ==> DecMap(s[n - 3]) % 16 == 0))
  }

  lemma {:induction false} SixBitsBack(v0: nat, v1: nat, v2: nat, v3: nat)
    requires v0 < 64 && v1 < 64 && v2 < 64 && v3 < 64
    ensures var a, b, c := v0 * 4 + v1 / 16, v1 % 16 * 16 + v2 / 4, v2 % 4 * 64 + v3;
            && a < 256 && b < 256 && c < 256
            && ((v0 * 64 + v1) * 64 + v2) * 64 + v3 == a * 0x1_0000 + b * 256 + c
            && a / 4 == v0 && a % 4 * 16 + b / 16 == v1 && b % 16 * 4 + c / 64 == v2 && c % 64 == v3
            && a % 4 * 16 == v1 / 16 * 16 && b % 16 * 4 == v2 / 4 * 4
  {}

  lemma {:induction false} EncMapInjective(v: nat, w: nat)
    requires v < 64 && w < 64
    ensures EncMap(v) == EncMap(w) <==> v == w
  {
    MapsInverse(v, 0);
    MapsInverse(w, 0);
  }

  /** The bytes of a group of four symbols, and their encoding. */
  lemma {:induction false} FullBack(v0: nat, v1: nat, v2: nat, v3: nat)
    requires v0 < 64 && v1 < 64 && v2 < 64 && v3 < 64
    ensures var q := [EncMap(v0), EncMap(v1), EncMap(v2), EncMap(v3)];
            var d := Unpacked(Value(q), 3);
            Pads(q) == 0 && |d| == 3 && Quad(d[0], d[1], d[2]) == q
  {
    hide EncMap, Value, Pads, Unpacked;
    EncodedValue(v0, v1, v2, v3);
    SixBitsBack(v0, v1, v2, v3);
    UnpackedBytes(v0 * 4 + v1 / 16, v1 % 16 * 16 + v2 / 4, v2 % 4 * 64 + v3);
  }

  lemma {:induction false} OnePadBack(v0: nat, v1: nat, v2: nat)
    requires v0 < 64 && v1 < 64 && v2 < 64
    ensures var q := [EncMap(v0), EncMap(v1), EncMap(v2), PAD];
            Pads(q) == 1 && (Encoded(Unpacked(Value(q), 2)) == q <==> v2 % 4 == 0)
  {
    hide EncMap, Value, Pads, Unpacked;
    EncodedValue(v0, v1, v2, 0);
    SixBitsBack(v0, v1, v2, 0);
    var a, b := v0 * 4 + v1 / 16, v1 % 16 * 16 + v2 / 4;
    UnpackedBytes(a, b, v2 % 4 * 64);
    EncMapInjective(v2, v2 / 4 * 4);
    assert Encoded([a, b]) == [EncMap(v0), EncMap(v1), EncMap(v2 / 4 * 4), PAD];
  }

  lemma {:induction false} TwoPadsBack(v0: nat, v1: nat)
    requires v0 < 64 && v1 < 64
    ensures var q := [EncMap(v0), EncMap(v1), PAD, PAD];
            Pads(q) == 2 && (Encoded(Unpacked(Value(q), 1)) == q <==> v1 % 16 == 0)
  {
    hide EncMap, Value, Pads, Unpacked;
    EncodedValue(v0, v1, 0, 0);
    SixBitsBack(v0, v1, 0, 0);
    var a := v0 * 4 + v1 / 16;
    UnpackedBytes(a, v1 % 16 * 16, 0);
    EncMapInjective(v1, v1 / 16 * 16);
    assert Encoded([a]) == [EncMap(v0), EncMap(v1 / 16 * 16), PAD, PAD];
  }

  /** A group that may be padded, its bytes, and their encoding. */
  lemma {:induction false} GroupBack(q: seq<Byte>)
    requires |q| == 4 && DecMap(q[0]) < 64 && DecMap(q[1]) < 64
    requires DecMap(q[2]) < 64 || q[2] == q[3] == PAD
    requires DecMap(q[3]) < 64 || q[3] == PAD
    ensures var d := Unpacked(Value(q), 3 - Pads(q));
            && (Pads(q) == 0 <==> q[3] != PAD)
            && (Pads(q) == 0 ==> Canonical(q) && |d| == 3 && Quad(d[0], d[1], d[2]) == q)
            && (Pads(q) > 0 ==> (Encoded(d) == q <==> Canonical(q)))
  {
    hide DecMap, EncMap, Value, Pads, Unpacked, Encoded, Quad;
    MapsInverse(0, q[0]);
    MapsInverse(0, q[1]);
    MapsInverse(0, q[2]);
    MapsInverse(0, q[3]);
    if q[3] != PAD {
      FullBack(DecMap(q[0]), DecMap(q[1]), DecMap(q[2]), DecMap(q[3]));
      assert q == [q[0], q[1], q[2], q[3]];
    } else if q[2] != PAD {
      OnePadBack(DecMap(q[0]), DecMap(q[1]), DecMap(q[2]));
      assert q == [q[0], q[1], q[2], PAD];
    } else {
      TwoPadsBack(DecMap(q[0]), DecMap(q[1]));
      assert q == [q[0], q[1], PAD, PAD];
    }
  }

  /** The first group: padding can only be at its end. */
  lemma {:induction false} GroupParts(s: seq<Byte>)
    requires Proper(s, 0) && |s| >= 4
    ensures DecMap(s[0]) < 64 && DecMap(s[1]) < 64
    ensures DecMap(s[2]) < 64 || s[2] == s[3] == PAD
    ensures DecMap(s[3]) < 64 || s[3] == PAD
  {
    hide DecMap, Proper, Pads;
    forall i | 0 <= i < 4 ensures s[i..] == [s[i]] + s[i + 1..] {}
    ProperStep(s[0], s[1..], 0);
    if s[0] == PAD { AllPads(s[1..], 1); }
    ProperStep(s[1], s[2..], 0);
    if s[1] == PAD { AllPads(s[2..], 1); }
    ProperStep(s[2], s[3..], 0);
    if s[2] == PAD {
      AllPads(s[3..], 1);
      ProperStep(s[3], s[4..], 1);
      PadsBound(s[4..]);
    } else {
      ProperStep(s[3], s[4..], 0);
    }
  }

  /** Decoding and encoding again gives a text back exactly when it is canonical. */
  lemma {:induction false} ReEncoded(s: seq<Byte>)
    requires Proper(s, 0)
    ensures Encoded(Decoded(s, 3)) == s <==> Canonical(s)
    decreases |s|
  {
    hide Proper, DecMap, Value, Unpacked, Quad, Pads, Decoded, Encoded;
    if |s| < 4 {
      ShortText(s);
    } else {
      GroupParts(s);
      ProperFour(s);
      var q, rest := s[..4], s[4..];
      assert s == q + rest;
      GroupDone(q, rest, 3);
      GroupBack(q);
      if Pads(q) == 0 {
        ReEncoded(rest);
        GroupInFront(Unpacked(Value(q), 3), Decoded(rest, 3));
        CanonicalBehind(q, rest);
      } else {
        ShortText(rest);
        LengthOfEncoding(Unpacked(Value(q), 3 - Pads(q)));
        assert Unpacked(Value(q), 3 - Pads(q)) + Decoded(rest, 3 - Pads(q)) == Unpacked(Value(q), 3 - Pads(q));
      }
    }
  }

  lemma {:induction false} CanonicalBehind(q: seq<Byte>, rest: seq<Byte>)
    requires |q| == 4 && Canonical(q)
    ensures Canonical(q + rest) <==> Canonical(rest)
  {
    if rest == [] { assert q + rest == q; }
  }

  lemma {:induction false} ShortText(s: seq<Byte>)
    requires |s| < 4
    ensures forall keep :: Decoded(s, keep) == []
    ensures Encoded([]) == [] && (Canonical(s) <==> s == [])
  {}

  lemma {:induction false} LengthOfEncoding(d: seq<Byte>)
    ensures |Encoded(d)| % 4 == 0
  {}

  lemma {:induction false} GroupInFront(d: seq<Byte>, more: seq<Byte>)
    requires |d| == 3
    ensures Encoded(d + more) == Quad(d[0], d[1], d[2]) + Encoded(more)
  {
    assert (d + more)[3..] == more;
  }
}
