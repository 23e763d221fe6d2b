/** The printer's methods: text put into a buffer that may be moved to a larger one between any two writes. */
module CJsonPrinter {
  import opened Bytes
  import opened JsonScan
  import opened CJsonTree

  const INT_MAX: nat := 0x7FFF_FFFF

  class PrintBuffer {
    var buffer: array<Byte>
    var offset: nat
    var depth: nat
    const noalloc: bool
    const format: bool

    constructor (buffer: array<Byte>, noalloc: bool, format: bool)
      ensures this.buffer == buffer && this.noalloc == noalloc && this.format == format && offset == 0 && depth == 0
    {
      this.buffer, this.noalloc, this.format, offset, depth := buffer, noalloc, format, 0, 0;
    }

    /** The buffer starts with this text. */
    ghost predicate Holds(text: seq<Byte>)
      reads this`buffer, buffer
    {
      |text| <= buffer.Length && buffer[..|text|] == text
    }

    /** The offset stands behind the text; only a buffer of size zero has no room at the offset. */
    ghost predicate Ready(text: seq<Byte>)
      reads this`buffer, this`offset, buffer
    {
      offset == |text| && Holds(text) && (offset < buffer.Length || buffer.Length == 0) && buffer.Length <= INT_MAX
    }

    /** The text is complete and ends with a zero; the offset may not have been moved behind it yet. */
    ghost predicate Printed(text: seq<Byte>)
      reads this`buffer, this`offset, buffer
    {
      |text| < buffer.Length <= INT_MAX && buffer[..|text|] == text && buffer[|text|] == 0
      && offset <= |text| && NulFree(text[offset..])
    }

    /** How much the buffer can come to hold. */
    ghost function Limit(): nat
      reads this`buffer
    {
      if noalloc then buffer.Length else INT_MAX
    }

    /** Makes room for `needed` more bytes and one, moving the text to a new buffer if necessary. */
    method Ensure(needed: nat, ghost text: seq<Byte>) returns (ok: bool)
      requires Ready(text)
      modifies this`buffer
      ensures ok ==> Ready(text) && offset + needed + 1 <= buffer.Length
      ensures buffer == old(buffer) || (fresh(buffer) && !noalloc)
      ensures offset + needed + 1 <= old(Limit()) ==> ok
    {
      if buffer.Length > 0 && offset >= buffer.Length { return false; }
      if needed > INT_MAX { return false; }
      var total := needed + offset + 1;
      if total <= buffer.Length { return true; }
      if noalloc { return false; }
      var newsize := total * 2;
      if total > INT_MAX / 2 {
        if total > INT_MAX { return false; }
        newsize := INT_MAX;
      }
      var newbuffer := new Byte[newsize];
      forall k | 0 <= k < buffer.Length { newbuffer[k] := buffer[k]; }
      assert newbuffer[..|text|] == buffer[..|text|];
      buffer := newbuffer;
      ok := true;
    }

    /** Puts bytes behind the text. */
    method Put(at: nat, bytes: seq<Byte>, ghost text: seq<Byte>) returns (end: nat)
      requires Holds(text) && at == |text| && at + |bytes| <= buffer.Length
      modifies buffer
      ensures Holds(text + bytes) && end == at + |bytes|
    {
      ghost var now := buffer[..];
      HeldWritten(now, text);
      end := CopyBytes(buffer, at, bytes, now, text);
      WrittenHeld(buffer[..], now, text + bytes);
    }

    /** Moves the offset behind the text, which ends where the first zero is. */
    method UpdateOffset(ghost text: seq<Byte>)
      requires Printed(text)
      modifies this`offset
      ensures Ready(text)
    {
      var length := 0;
      forall k | offset <= k < |text| ensures buffer[k] != 0 {
        assert buffer[..|text|][k] == text[k] && text[offset..][k - offset] == text[k] && text[k] in text[offset..];
      }
      while buffer[offset + length] != 0
        invariant offset + length <= |text|
        decreases |text| - offset - length
      {
        length := length + 1;
      }
      offset := offset + length;
    }

    /** A fixed text with its terminating zero; the offset stays where it is. */
    method PrintFixed(bytes: seq<Byte>, needed: nat, ghost text: seq<Byte>) returns (ok: bool)
      requires Ready(text) && NulFree(bytes) && |bytes| < needed
      modifies this`buffer, buffer
      ensures ok ==> Printed(text + bytes) && offset == |text|
      ensures buffer == old(buffer) || (fresh(buffer) && !noalloc)
      ensures |text| + needed + 1 <= old(Limit()) ==> ok
    {
      hide NulFree;
      ok := Ensure(needed, text);
      if !ok { return; }
      var end := Put(offset, bytes, text);
      end := Put(end, [0], text + bytes);
      PrintedNow(text, bytes);
    }

    method PrintNumber(token: seq<Byte>, ghost text: seq<Byte>) returns (ok: bool)
      requires Ready(text) && IsNumberToken(token)
      modifies this`buffer, this`offset, buffer
      ensures ok ==> Printed(text + token)
      ensures buffer == old(buffer) || (fresh(buffer) && !noalloc)
      ensures |text| + |token| + 2 <= old(Limit()) ==> ok
    {
      hide StrtodLength;
      ok := PrintFixed(token, |token| + 1, text);
      if !ok { return; }
      offset := offset + |token|;
      TokenNulFree(token);
      Behind(text + token);
    }

    lemma {:induction false} Behind(text: seq<Byte>)
      requires |text| < buffer.Length <= INT_MAX && buffer[..|text|] == text && buffer[|text|] == 0 && offset == |text|
      ensures Printed(text)
    {}

    /** Counts the bytes that escaping adds. */
    method CountEscapes(input: seq<Byte>) returns (n: nat)
      ensures |Escaped(input)| == |input| + n
    {
      n := 0;
      var i := 0;
      assert input[0..] == input;
      while i < |input|
        invariant 0 <= i <= |input| && |Escaped(input)| == i + n + |Escaped(input[i..])|
      {
        EscapedStep(input, i);
        if ShortEscape(input[i]) != 0 { n := n + 1; } else if input[i] < SPACE { n := n + 5; }
        i := i + 1;
      }
    }

    method PrintStringPtr(input: seq<Byte>, ghost text: seq<Byte>) returns (ok: bool)
      requires Ready(text) && NulFree(input)
      modifies this`buffer, buffer
      ensures ok ==> Printed(text + Quoted(input)) && offset == |text|
      ensures buffer == old(buffer) || (fresh(buffer) && !noalloc)
      ensures |text| + |Quoted(input)| + 2 <= old(Limit()) ==> ok
    {
      hide NulFree, Escaped, EscapedByte;
      var escapes := CountEscapes(input);
      var length := |input| + escapes;
      ok := Ensure(length + 3, text);
      if !ok { return; }
      ghost var now := text + [QUOTE];
      var end := Put(offset, [QUOTE], text);
      if escapes == 0 {
        NothingEscaped(input);
        end := Put(end, input, now);
      } else {
        end := PutEscaped(end, input, now);
      }
      end := Put(end, [QUOTE], now + Escaped(input));
      end := Put(end, [0], now + Escaped(input) + [QUOTE]);
      assert now + Escaped(input) + [QUOTE] == text + Quoted(input);
      QuotedNulFree(input);
      PrintedNow(text, Quoted(input));
    }

    method PutEscaped(at: nat, input: seq<Byte>, ghost text: seq<Byte>) returns (end: nat)
      requires Holds(text) && at == |text| && at + |Escaped(input)| <= buffer.Length
      modifies buffer
      ensures Holds(text + Escaped(input)) && end == at + |Escaped(input)|
    {
      hide Holds, EscapedByte;
      end := at;
      ghost var now := text;
      var i := 0;
      assert input[0..] == input && now + Escaped(input) == text + Escaped(input);
      while i < |input|
        invariant 0 <= i <= |input| && end == |now| && Holds(now)
        invariant now + Escaped(input[i..]) == text + Escaped(input)
      {
        EscapedStep(input, i);
        var e := EscapedByte(input[i]);
        assert now + (e + Escaped(input[i + 1..])) == now + e + Escaped(input[i + 1..]);
        assert |now + e| <= |text + Escaped(input)|;
        end := Put(end, e, now);
        now := now + e;
        i := i + 1;
      }
      assert now + [] == now;
    }

    /** Makes room, puts bytes and moves the offset behind them; most callers store a zero there as well. */
    method Emit(bytes: seq<Byte>, needed: nat, terminate: bool, ghost text: seq<Byte>) returns (ok: bool)
      requires Ready(text) && |bytes| + (if terminate then 1 else 0) <= needed
      modifies this`buffer, this`offset, buffer
      ensures ok ==> Ready(text + bytes)
      ensures buffer == old(buffer) || (fresh(buffer) && !noalloc)
      ensures |text| + needed + 1 <= old(Limit()) ==> ok
    {
      ok := Ensure(needed, text);
      if !ok { return; }
      var end := Put(offset, bytes, text);
      if terminate {
        end := Put(end, [0], text + bytes);
        Shorter(text + bytes, [0]);
      }
      offset := offset + |bytes|;
    }

    lemma {:induction false} Shorter(text: seq<Byte>, more: seq<Byte>)
      requires Holds(text + more)
      ensures Holds(text)
    {}

    method PrintValue(v: Json, ghost text: seq<Byte>) returns (ok: bool)
      requires Ready(text) && ValidJson(v)
      modifies this, buffer
      ensures ok ==> Printed(text + Render(v, format, old(depth))) && depth == old(depth)
      ensures buffer == old(buffer) || (fresh(buffer) && !noalloc)
      ensures |text| + |Render(v, format, old(depth))| + 2 <= old(Limit()) ==> ok
      decreases v, 1
    {
      hide NulFree, Quoted, IsNumberToken, ValidChildren, RenderChildren;
      LiteralsNulFree();
      match v
      case Null => ok := PrintFixed(NULL, 5, text);
      case False => ok := PrintFixed(FALSE, 6, text);
      case True => ok := PrintFixed(TRUE, 5, text);
      case Number(token) => ok := PrintNumber(token, text);
      case Text(content) => ok := PrintStringPtr(content, text);
      case Container(isObject, children) =>
        if isObject { ok := PrintObject(children, text); } else { ok := PrintArray(children, text); }
    }

    /** An element of an array, with the comma behind it. */
    method PrintElement(v: Json, last: bool, ghost text: seq<Byte>) returns (ok: bool)
      requires Ready(text) && ValidJson(v)
      modifies this, buffer
      ensures ok ==> Ready(text + Render(v, format, old(depth)) + Trail(false, format, last)) && depth == old(depth)
      ensures buffer == old(buffer) || (fresh(buffer) && !noalloc)
      ensures |text| + |Render(v, format, old(depth)) + Trail(false, format, last)| + 2 <= old(Limit()) ==> ok
      decreases v, 2
    {
      hide Render, ValidJson, Ready, Printed;
      ghost var now := text + Render(v, format, depth);
      ok := PrintValue(v, text);
      if !ok { return; }
      UpdateOffset(now);
      if last {
        assert now + Trail(false, format, last) == now;
      } else {
        var trail := if format then [COMMA, SPACE] else [COMMA];
        ok := Emit(trail, |trail| + 1, true, now);
      }
    }

    method PrintArray(children: Children, ghost text: seq<Byte>) returns (ok: bool)
      requires Ready(text) && ValidChildren(children, false)
      modifies this, buffer
      ensures ok ==> Printed(text + Render(Container(false, children), format, old(depth))) && depth == old(depth)
      ensures buffer == old(buffer) || (fresh(buffer) && !noalloc)
      ensures |text| + |Render(Container(false, children), format, old(depth))| + 2 <= old(Limit()) ==> ok
      decreases children
    {
      hide Render, RenderChildren, NulFree, ValidJson, Ready, Printed, Trail;
      ghost var whole, d := text + Render(Container(false, children), format, depth), depth;
      ArrayWhole(children, format, depth, text);
      ok := Emit([SQUARE_OPEN], 1, false, text);
      if !ok { return; }
      depth := depth + 1;
      ghost var now := text + [SQUARE_OPEN];
      var current := children;
      while current.Child?
        invariant current == children || current < children
        invariant ValidChildren(current, false) && depth == d + 1 && Ready(now)
        invariant buffer == old(buffer) || (fresh(buffer) && !noalloc)
        invariant whole == now + (RenderChildren(current, false, format, d + 1) + [SQUARE_CLOSE])
        decreases current
      {
        ElementWhole(current, format, d + 1, now, [SQUARE_CLOSE]);
        ok := PrintElement(current.value, current.next.NoChild?, now);
        if !ok { return; }
        now := now + Render(current.value, format, d + 1) + Trail(false, format, current.next.NoChild?);
        current := current.next;
      }
      NoneWhole(false, format, d + 1, now, [SQUARE_CLOSE]);
      ok := PrintFixed([SQUARE_CLOSE], 2, now);
      depth := depth - 1;
    }

    /** The indented name of a member and the colon. */
    method PrintName(name: seq<Byte>, ghost text: seq<Byte>) returns (ok: bool)
      requires Ready(text) && NulFree(name)
      modifies this`buffer, this`offset, buffer
      ensures ok ==> Ready(text + Lead(true, format, depth, name))
      ensures buffer == old(buffer) || (fresh(buffer) && !noalloc)
      ensures |text| + |Lead(true, format, depth, name)| + 2 <= old(Limit()) ==> ok
    {
      hide Ready, Printed, Quoted, Tabs, NulFree;
      ghost var now := text;
      if format {
        ok := Emit(Tabs(depth), depth, false, now);
        if !ok { return; }
        now := now + Tabs(depth);
      }
      ok := PrintStringPtr(name, now);
      if !ok { return; }
      now := now + Quoted(name);
      UpdateOffset(now);
      var colon := if format then [COLON, TAB] else [COLON];
      ok := Emit(colon, |colon|, false, now);
      assert now + colon == text + Lead(true, format, depth, name);
    }

    /** A member of an object, with the comma and the line break behind it. */
    method PrintMember(name: seq<Byte>, v: Json, last: bool, ghost text: seq<Byte>) returns (ok: bool)
      requires Ready(text) && NulFree(name) && ValidJson(v)
      modifies this, buffer
      ensures ok ==>
                && Ready(text + Lead(true, format, old(depth), name) + Render(v, format, old(depth)) + Trail(true, format, last))
                && depth == old(depth)
      ensures buffer == old(buffer) || (fresh(buffer) && !noalloc)
      ensures (var t := Lead(true, format, old(depth), name) + Render(v, format, old(depth)) + Trail(true, format, last);
               |text| + |t| + 2 <= old(Limit())) ==> ok
      decreases v, 2
    {
      hide Render, ValidJson, Ready, Printed, Lead, NulFree;
      ghost var now := text + Lead(true, format, depth, name);
      ok := PrintName(name, text);
      if !ok { return; }
      ok := PrintValue(v, now);
      if !ok { return; }
      now := now + Render(v, format, depth);
      UpdateOffset(now);
      var comma := if last then [] else [COMMA];
      var trail := comma + if format then [LF] else [];
      ok := Emit(trail, |trail| + 1, true, now);
    }

    method PrintObject(children: Children, ghost text: seq<Byte>) returns (ok: bool)
      requires Ready(text) && ValidChildren(children, true)
      modifies this, buffer
      ensures ok ==> Printed(text + Render(Container(true, children), format, old(depth))) && depth == old(depth)
      ensures buffer == old(buffer) || (fresh(buffer) && !noalloc)
      ensures |text| + |Render(Container(true, children), format, old(depth))| + 2 <= old(Limit()) ==> ok
      decreases children
    {
      hide Render, RenderChildren, NulFree, ValidJson, Ready, Printed, Trail, Lead, Tabs;
      ghost var whole, d := text + Render(Container(true, children), format, depth), depth;
      ghost var end := Closing(true, format, depth);
      var opening := if format then [CURLY_OPEN, LF] else [CURLY_OPEN];
      ObjectWhole(children, format, depth, text);
      ok := Emit(opening, |opening| + 1, false, text);
      if !ok { return; }
      depth := depth + 1;
      ghost var now := text + opening;
      var current := children;
      while current.Child?
        invariant current == children || current < children
        invariant ValidChildren(current, true) && depth == d + 1 && Ready(now)
        invariant buffer == old(buffer) || (fresh(buffer) && !noalloc)
        invariant whole == now + (RenderChildren(current, true, format, d + 1) + end)
        decreases current
      {
        ItemWhole(current, true, format, d + 1, now, end);
        ok := PrintMember(current.name, current.value, current.next.NoChild?, now);
        if !ok { return; }
        now := now + Lead(true, format, d + 1, current.name) + Render(current.value, format, d + 1)
               + Trail(true, format, current.next.NoChild?);
        current := current.next;
      }
      NoneWhole(true, format, d + 1, now, end);
      var closing := (if format then Tabs(depth - 1) else []) + [CURLY_CLOSE];
      ClosingNulFree(format, depth - 1);
      ok := PrintFixed(closing, if format then depth + 1 else 2, now);
      depth := depth - 1;
    }

    lemma {:induction false} PrintedNow(text: seq<Byte>, bytes: seq<Byte>)
      requires Holds(text + bytes + [0]) && offset == |text| && NulFree(bytes) && buffer.Length <= INT_MAX
      ensures Printed(text + bytes)
    {}
  }

  lemma {:induction false} LiteralsNulFree()
    ensures NulFree(NULL) && NulFree(FALSE) && NulFree(TRUE) && NulFree([SQUARE_CLOSE])
  {}

  lemma {:induction false} ArrayWhole(c: Children, format: bool, d: nat, text: seq<Byte>)
    ensures text + Render(Container(false, c), format, d)
            == text + [SQUARE_OPEN] + (RenderChildren(c, false, format, d + 1) + [SQUARE_CLOSE])
    ensures NulFree([SQUARE_CLOSE])
  {
    assert Closing(false, format, d) == [SQUARE_CLOSE] && Opening(false, format) == [SQUARE_OPEN];
  }

  lemma {:induction false} ObjectWhole(c: Children, format: bool, d: nat, text: seq<Byte>)
    ensures text + Render(Container(true, c), format, d)
            == text + (if format then [CURLY_OPEN, LF] else [CURLY_OPEN])
               + (RenderChildren(c, true, format, d + 1) + Closing(true, format, d))
  {}

  lemma {:induction false} ClosingNulFree(format: bool, d: nat)
    ensures NulFree((if format then Tabs(d) else []) + [CURLY_CLOSE])
  {
    TabsNulFree(d);
  }

  lemma {:induction false} TabsNulFree(n: nat)
    ensures NulFree(Tabs(n))
  {
    if n > 0 { TabsNulFree(n - 1); }
  }

  lemma {:induction false} ElementWhole(c: Children, format: bool, depth: nat, now: seq<Byte>, end: seq<Byte>)
    requires c.Child?
    ensures now + (RenderChildren(c, false, format, depth) + end)
            == now + Render(c.value, format, depth) + Trail(false, format, c.next.NoChild?)
               + (RenderChildren(c.next, false, format, depth) + end)
  {
    hide Render, Trail, RenderChildren;
    ItemWhole(c, false, format, depth, now, end);
  }

  /** The text of the first item and of the others, behind what has been printed and in front of the end. */
  lemma {:induction false} ItemWhole(c: Children, isObject: bool, format: bool, depth: nat, now: seq<Byte>, end: seq<Byte>)
    requires c.Child?
    ensures var lead, t := Lead(isObject, format, depth, c.name), Render(c.value, format, depth);
            now + (RenderChildren(c, isObject, format, depth) + end)
            == now + lead + t + Trail(isObject, format, c.next.NoChild?)
               + (RenderChildren(c.next, isObject, format, depth) + end)
    ensures !isObject ==> Lead(isObject, format, depth, c.name) == [] && now + [] == now
  {
    hide Lead, Trail, Render;
    NoLead(format, depth, c.name);
    var a, b, t, r := Lead(isObject, format, depth, c.name), Render(c.value, format, depth),
                      Trail(isObject, format, c.next.NoChild?), RenderChildren(c.next, isObject, format, depth);
    assert now + (a + (b + (t + r)) + end) == now + a + b + t + (r + end);
  }

  lemma {:induction false} NoLead(format: bool, depth: nat, name: seq<Byte>)
    ensures Lead(false, format, depth, name) == []
  {}

  lemma {:induction false} NoneWhole(isObject: bool, format: bool, depth: nat, now: seq<Byte>, end: seq<Byte>)
    ensures now + (RenderChildren(NoChild, isObject, format, depth) + end) == now + end
  {}

  lemma {:induction false} TokenNulFree(token: seq<Byte>)
    requires IsNumberToken(token)
    ensures NulFree(token) && NulFree([])
  {}

  lemma {:induction false} EscapedStep(s: seq<Byte>, i: nat)
    requires i < |s|
    ensures Escaped(s[i..]) == EscapedByte(s[i]) + Escaped(s[i + 1..])
    ensures |EscapedByte(s[i])| == if ShortEscape(s[i]) != 0 then 2 else if s[i] < SPACE then 6 else 1
    ensures Escaped([]) == []
  {}

  lemma {:induction false} NothingEscaped(s: seq<Byte>)
    requires |Escaped(s)| == |s|
    ensures Escaped(s) == s
    decreases |s|
  {
    if s != [] {
      NothingEscaped(s[1..]);
      assert s == [s[0]] + s[1..];
    }
  }

  lemma {:induction false} EscapedNulFree(s: seq<Byte>)
    requires NulFree(s)
    ensures NulFree(Escaped(s))
    decreases |s|
  {
    if s != [] {
      assert s[0] in s && forall c <- s[1..] :: c in s;
      EscapedNulFree(s[1..]);
    }
  }

  lemma {:induction false} QuotedNulFree(s: seq<Byte>)
    requires NulFree(s)
    ensures NulFree(Quoted(s))
  {
    EscapedNulFree(s);
  }

  lemma {:induction false} HeldWritten(now: seq<Byte>, text: seq<Byte>)
    requires |text| <= |now| && now[..|text|] == text
    ensures Written(now, now, text)
  {}

  lemma {:induction false} WrittenHeld(now: seq<Byte>, before: seq<Byte>, text: seq<Byte>)
    requires Written(now, before, text)
    ensures |text| <= |now| && now[..|text|] == text
  {}

  // ----- the entry points

  const DEFAULT_BUFFER: nat := 256

  /** The text of the tree, whatever buffers it went through. */
  method Print(v: Json, format: bool) returns (ok: bool, text: seq<Byte>)
    requires ValidJson(v)
    ensures ok ==> text == Render(v, format, 0)
    ensures |Render(v, format, 0)| + 2 <= INT_MAX ==> ok
  {
    hide Render, ValidJson;
    var first := new Byte[DEFAULT_BUFFER];
    var p := new PrintBuffer(first, false, format);
    text := [];
    assert [] + Render(v, format, 0) == Render(v, format, 0);
    ok := p.PrintValue(v, []);
    if !ok { return; }
    p.UpdateOffset(Render(v, format, 0));
    text := p.buffer[..p.offset];
  }

  /** The same with a first buffer of the caller's choice of size. */
  method PrintBuffered(v: Json, prebuffer: int, format: bool) returns (ok: bool, buffer: array<Byte>)
    requires ValidJson(v) && prebuffer <= INT_MAX
    ensures ok ==> var t := Render(v, format, 0); |t| < buffer.Length && buffer[..|t|] == t && buffer[|t|] == 0
    ensures prebuffer >= 0 && |Render(v, format, 0)| + 2 <= INT_MAX ==> ok
  {
    hide Render, ValidJson;
    if prebuffer < 0 {
      buffer := new Byte[0];
      return false, buffer;
    }
    var first := new Byte[prebuffer];
    var p := new PrintBuffer(first, false, format);
    assert [] + Render(v, format, 0) == Render(v, format, 0);
    ok := p.PrintValue(v, []);
    buffer := p.buffer;
  }

  /** Into the caller's buffer, which is never replaced: two bytes more than the text are always enough. */
  method PrintPreallocated(v: Json, buffer: array<Byte>, format: bool) returns (ok: bool)
    requires ValidJson(v) && buffer.Length <= INT_MAX
    modifies buffer
    ensures ok ==> var t := Render(v, format, 0); |t| < buffer.Length && buffer[..|t|] == t && buffer[|t|] == 0
    ensures |Render(v, format, 0)| + 2 <= buffer.Length ==> ok
  {
    hide Render, ValidJson;
    var p := new PrintBuffer(buffer, true, format);
    assert [] + Render(v, format, 0) == Render(v, format, 0);
    ok := p.PrintValue(v, []);
  }
}
