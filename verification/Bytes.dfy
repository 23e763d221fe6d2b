/** Bytes as they stand in the library's buffers. */
module Bytes {
  type Byte = x: int | 0 <= x < 256

  /** A buffer that held `before` now starts with `done`; the rest of it has not changed. */
  ghost predicate Written<T>(now: seq<T>, before: seq<T>, done: seq<T>) {
    |done| <= |before| && now == done + before[|done|..]
  }

  lemma {:induction false} WrittenNothing<T>(before: seq<T>)
    ensures Written(before, before, [])
  {}

  /** Copies text into the buffer behind what has been written so far, as memcpy does. */
  method CopyBytes<T>(a: array<T>, at: nat, text: seq<T>, ghost before: seq<T>, ghost done: seq<T>) returns (end: nat)
    requires Written(a[..], before, done) && at == |done| && at + |text| <= a.Length
    modifies a
    ensures end == at + |text| && Written(a[..], before, done + text)
  {
    forall k | 0 <= k < |text| {
      a[at + k] := text[k];
    }
    end := at + |text|;
    assert a[..at] == done && a[at..end] == text && a[end..] == before[end..];
    assert a[..] == a[..at] + a[at..end] + a[end..];
  }

  method PutByte<T>(a: array<T>, at: nat, x: T, ghost before: seq<T>, ghost done: seq<T>) returns (end: nat)
    requires Written(a[..], before, done) && at == |done| < a.Length
    modifies a
    ensures end == at + 1 && Written(a[..], before, done + [x])
  {
    a[at] := x;
    end := at + 1;
    assert a[..at] == done && a[end..] == before[end..];
    assert a[..] == a[..at] + [x] + a[end..];
  }

  // ----- texts inside a buffer

  /** The buffer holds the text t at index i. */
  predicate At(b: seq<Byte>, i: nat, t: seq<Byte>)
    ensures At(b, i, t) ==> i + |t| <= |b|
  {
    i + |t| <= |b| && b[i..i + |t|] == t
  }

  lemma {:induction false} AtConcat(b: seq<Byte>, i: nat, s: seq<Byte>, t: seq<Byte>)
    ensures At(b, i, s + t) <==> At(b, i, s) && At(b, i + |s|, t)
  {
    if i + |s| + |t| <= |b| {
      assert b[i..i + |s + t|] == b[i..i + |s|] + b[i + |s|..i + |s| + |t|];
      if At(b, i, s + t) {
        assert (s + t)[..|s|] == s && (s + t)[|s|..] == t;
        assert b[i..i + |s + t|][..|s|] == b[i..i + |s|];
        assert b[i..i + |s + t|][|s|..] == b[i + |s|..i + |s| + |t|];
      }
    }
  }

  lemma {:induction false} AtByte(b: seq<Byte>, i: nat, t: seq<Byte>, k: nat)
    requires At(b, i, t) && k < |t|
    ensures b[i + k] == t[k]
  {}

  // ----- ASCII

  function AsciiByte(c: char): Byte { if c as int < 128 then c as int else 0 }

  /** The bytes of an ASCII text. */
  function Ascii(s: string): (t: seq<Byte>)
    ensures |t| == |s| && forall k :: 0 <= k < |s| ==> t[k] == AsciiByte(s[k])
  {
    seq(|s|, k requires 0 <= k < |s| => AsciiByte(s[k]))
  }

  lemma {:induction false} AsciiConcat(s: string, t: string)
    ensures Ascii(s + t) == Ascii(s) + Ascii(t)
  {}
}
