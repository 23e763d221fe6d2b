/** The variable-length integer of the MQTT fixed header, section 2.2.3 of MQTT 3.1.1. */
module RemainingLength {
  import opened Bytes

  const MAX_LENGTH: nat := 268435455
  const INVALID_LENGTH: nat := 268435456

  /** Seven bits a byte, low end first; the top bit says that more follows. */
  function Encoded(n: nat): (s: seq<Byte>)
    ensures s != []
  {
    if n < 128 then [n] else [n % 128 + 128] + Encoded(n / 128)
  }

  function EncodedSize(n: nat): nat {
    if n < 128 then 1 else if n < 16384 then 2 else if n < 2097152 then 3 else 4
  }

  /** The size is the right one exactly up to the largest length of the standard. */
  lemma {:induction false} SizeExact(n: nat)
    ensures n <= MAX_LENGTH <==> |Encoded(n)| <= 4
    ensures n <= MAX_LENGTH <==> |Encoded(n)| == EncodedSize(n)
  {
    var n1, n2, n3 := n / 128, n / 128 / 128, n / 128 / 128 / 128;
    assert n >= 128 ==> |Encoded(n)| == 1 + |Encoded(n1)|;
    assert n1 >= 128 ==> |Encoded(n1)| == 1 + |Encoded(n2)|;
    assert n2 >= 128 ==> |Encoded(n2)| == 1 + |Encoded(n3)|;
    assert n3 >= 128 ==> |Encoded(n3)| == 1 + |Encoded(n3 / 128)|;
  }

  /** The number that bytes stand for: the low seven bits of each are its digits, lowest first. */
  function Digits(s: seq<Byte>): nat {
    if s == [] then 0 else s[0] % 128 + 128 * Digits(s[1..])
  }

  /** The encoding has the digits of the number, the top bit of every byte but the last, and no last byte zero
      but that of zero itself. */
  lemma {:induction false} EncodedDigits(n: nat)
    ensures var s := Encoded(n);
            && Digits(s) == n && s[|s| - 1] < 128 && (s[|s| - 1] == 0 ==> n == 0)
            && forall i :: 0 <= i < |s| - 1 ==> s[i] >= 128
  {
    if n >= 128 { EncodedDigits(n / 128); }
  }

  /** The bounds of table 2.4 of the standard. */
  lemma {:induction false} EncodedBounds()
    ensures Encoded(0) == [0x00] && Encoded(127) == [0x7F]
    ensures Encoded(128) == [0x80, 0x01] && Encoded(16383) == [0xFF, 0x7F]
    ensures Encoded(16384) == [0x80, 0x80, 0x01] && Encoded(2097151) == [0xFF, 0xFF, 0x7F]
    ensures Encoded(2097152) == [0x80, 0x80, 0x80, 0x01] && Encoded(268435455) == [0xFF, 0xFF, 0xFF, 0x7F]
    ensures Decoded([0x80, 0x80, 0x80, 0x80, 0x01]) == INVALID_LENGTH && Decoded([0x80, 0x00]) == INVALID_LENGTH
  {}

  /** Writes the encoding behind what has been written so far. */
  method EncodeRemainingLength(a: array<Byte>, at: nat, length: nat, ghost before: seq<Byte>, ghost done: seq<Byte>)
    returns (end: nat)
    requires Written(a[..], before, done) && at == |done| && at + |Encoded(length)| <= a.Length
    modifies a
    ensures end == at + |Encoded(length)| && Written(a[..], before, done + Encoded(length))
  {
    hide Written;
    var remaining := length;
    end := at;
    ghost var now := done;
    var more := true;
    assert done + Encoded(length) == now + Encoded(remaining);
    while more
      invariant Written(a[..], before, now) && |now| == end
      invariant now + (if more then Encoded(remaining) else []) == done + Encoded(length)
      decreases more, remaining
    {
      ghost var rest := Encoded(remaining);
      var lengthByte: Byte := remaining % 128;
      remaining := remaining / 128;
      more := remaining > 0;
      if more { lengthByte := lengthByte + 128; }
      assert rest == [lengthByte] + (if more then Encoded(remaining) else []);
      end := PutByte(a, end, lengthByte, before, now);
      now := now + [lengthByte];
    }
    assert now + [] == now;
  }

  datatype Reading = Nothing | Reading(value: nat, size: nat)

  /** Reads at most `budget` bytes, up to and including the first one whose top bit is clear. */
  function Read(s: seq<Byte>, budget: nat): (r: Reading)
    ensures r.Reading? ==> 1 <= r.size <= budget && r.size <= |s|
    decreases budget
  {
    if budget == 0 || s == [] then Nothing
    else if s[0] < 128 then Reading(s[0], 1)
    else
      var r := Read(s[1..], budget - 1);
      if r.Nothing? then Nothing else Reading(s[0] - 128 + 128 * r.value, r.size + 1)
  }

  /** The length at the head of the incoming bytes, or the invalid length. */
  function Decoded(s: seq<Byte>): (n: nat) {
    var r := Read(s, 4);
    if r.Reading? && r.size == EncodedSize(r.value) then r.value else INVALID_LENGTH
  }

  /** The reading of a whole string from the `used` bytes done, worth n, and the reading of the others. */
  function Joined(n: nat, multiplier: nat, used: nat, r: Reading): Reading {
    if r.Nothing? then Nothing else Reading(n + multiplier * r.value, used + r.size)
  }

  lemma {:induction false} JoinedNothing(s: seq<Byte>)
    ensures Read(s, 4) == Joined(0, 1, 0, Read(s[0..], 4))
  {}

  lemma {:induction false} ReadStops(s: seq<Byte>, n: nat, multiplier: nat, used: nat)
    requires used <= 4 && used <= |s| && (used == 4 || used == |s|)
    ensures Joined(n, multiplier, used, Read(s[used..], 4 - used)) == Nothing
  {}

  lemma {:induction false} ReadStep(s: seq<Byte>, n: nat, multiplier: nat, used: nat)
    requires used < 4 && used < |s|
    ensures var m := n + s[used] % 128 * multiplier;
            Joined(n, multiplier, used, Read(s[used..], 4 - used))
            == if s[used] < 128 then Reading(m, used + 1)
               else Joined(m, multiplier * 128, used + 1, Read(s[used + 1..], 3 - used))
  {
    assert s[used..][1..] == s[used + 1..];
    var r := Read(s[used + 1..], 3 - used);
    if s[used] >= 128 && r.Reading? { Distribute(multiplier, s[used] - 128, r.value); }
  }

  lemma {:induction false} Distribute(m: int, x: int, v: int)
    ensures m * (x + 128 * v) == x * m + m * 128 * v
  {}

  /** `incoming` is what the transport delivers before a call to it fails. */
  method GetRemainingLength(incoming: seq<Byte>) returns (n: nat, used: nat)
    ensures n == Decoded(incoming)
    ensures n != INVALID_LENGTH ==> used == EncodedSize(n)
  {
    hide Joined, Read;
    var multiplier: nat := 1;
    var more := true;
    JoinedNothing(incoming);
    n, used := 0, 0;
    while more
      invariant used <= 4 && used <= |incoming|
      invariant multiplier == (if used == 0 then 1 else if used == 1 then 128 else if used == 2 then 16384
                               else if used == 3 then 2097152 else 268435456)
      invariant n < multiplier
      invariant more ==> Read(incoming, 4) == Joined(n, multiplier, used, Read(incoming[used..], 4 - used))
      invariant !more ==> Read(incoming, 4) == Reading(n, used)
      decreases more, 4 - used
    {
      if multiplier > 2097152 || used == |incoming| {
        ReadStops(incoming, n, multiplier, used);
        n := INVALID_LENGTH;
        break;
      }
      var encodedByte: int := incoming[used];
      ReadStep(incoming, n, multiplier, used);
      n := n + encodedByte % 128 * multiplier;
      multiplier := multiplier * 128;
      used := used + 1;
      more := encodedByte >= 128;
    }
    if n != INVALID_LENGTH {
      var expectedSize := EncodedSize(n);
      if used != expectedSize { n := INVALID_LENGTH; }
    }
  }

  // ----- decoding and encoding are inverse

  lemma {:induction false} ReadEncoded(n: nat, rest: seq<Byte>, budget: nat)
    requires |Encoded(n)| <= budget
    ensures Read(Encoded(n) + rest, budget) == Reading(n, |Encoded(n)|)
    decreases budget
  {
    var s := Encoded(n) + rest;
    if n >= 128 {
      assert s[1..] == Encoded(n / 128) + rest;
      ReadEncoded(n / 128, rest, budget - 1);
    }
  }

  /** What was read is the encoding of its value exactly when it is no longer than that encoding. */
  lemma {:induction false} ReadShortest(s: seq<Byte>, budget: nat)
    requires Read(s, budget).Reading?
    ensures var r := Read(s, budget);
            |Encoded(r.value)| <= r.size && (r.size == |Encoded(r.value)| <==> s[..r.size] == Encoded(r.value))
    decreases budget
  {
    var r := Read(s, budget);
    if s[0] >= 128 {
      ReadShortest(s[1..], budget - 1);
      var q := Read(s[1..], budget - 1);
      assert s[..r.size] == [s[0]] + s[1..][..q.size];
      assert r.value / 128 == q.value && r.value % 128 == s[0] - 128;
    }
  }

  /** Decoding finds n exactly when the bytes start with the encoding of n: no encoding that is longer
      than needed, too long or cut off is accepted. */
  lemma {:induction false} DecodedExact(s: seq<Byte>, n: nat)
    requires n <= MAX_LENGTH
    ensures Decoded(s) == n <==> |Encoded(n)| <= |s| && s[..|Encoded(n)|] == Encoded(n)
    ensures Decoded(s) <= INVALID_LENGTH
  {
    hide EncodedSize;
    var e := |Encoded(n)|;
    SizeExact(n);
    if e <= |s| && s[..e] == Encoded(n) {
      assert s == Encoded(n) + s[e..];
      ReadEncoded(n, s[e..], 4);
    }
    var r := Read(s, 4);
    if r.Reading? {
      ReadShortest(s, 4);
      SizeExact(r.value);
    }
  }

  /** Different lengths have encodings of which none is the beginning of the other. */
  lemma {:induction false} EncodedPrefixFree(m: nat, n: nat)
    requires m <= MAX_LENGTH && n <= MAX_LENGTH && Encoded(m) <= Encoded(n)
    ensures m == n
  {
    DecodedExact(Encoded(n), m);
    DecodedExact(Encoded(n), n);
  }
}
