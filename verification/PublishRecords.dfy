/** The fixed-size record array of the state engine and the operations that edit it in place.
    Its meaning is the sequence of live records: the slots with a nonzero id, in slot order. */
module PublishRecords {
  import opened MqttTypes

  datatype Record = Record(packetId: PacketId, qos: QoS, state: PublishState)

  predicate IsFree(r: Record) { r.packetId == INVALID_ID }

  /** The live records of an array, in slot order. */
  function Live(s: seq<Record>): (live: seq<Record>)
    ensures |live| <= |s|
    ensures forall r <- live :: !IsFree(r)
  {
    if s == [] then []
    else if IsFree(s[0]) then Live(s[1..])
    else [s[0]] + Live(s[1..])
  }

  predicate HasId(live: seq<Record>, id: PacketId) {
    exists i :: 0 <= i < |live| && live[i].packetId == id
  }

  predicate DistinctIds(live: seq<Record>) {
    forall i, j :: 0 <= i < j < |live| ==> live[i].packetId != live[j].packetId
  }

  /** The position of the first record with the given id, or the length. */
  function IndexOf(live: seq<Record>, id: PacketId): (k: nat)
    ensures k <= |live|
    ensures k < |live| ==> live[k].packetId == id
    ensures forall i :: 0 <= i < k ==> live[i].packetId != id
  {
    if live == [] || live[0].packetId == id then 0 else 1 + IndexOf(live[1..], id)
  }

  lemma {:induction false} IndexOfFirst(live: seq<Record>, k: nat)
    requires k < |live| && forall i :: 0 <= i < k ==> live[i].packetId != live[k].packetId
    ensures IndexOf(live, live[k].packetId) == k
  {}

  lemma {:induction false} IndexOfUnique(live: seq<Record>, k: nat)
    requires DistinctIds(live) && k < |live|
    ensures IndexOf(live, live[k].packetId) == k
  {}

  function Remove(live: seq<Record>, k: nat): (r: seq<Record>)
    requires k < |live|
  {
    live[..k] + live[k + 1..]
  }

  /** What adding a record reports, as a fact about the live sequence alone. */
  function AddStatus(live: seq<Record>, capacity: nat, id: PacketId): Status {
    if HasId(live, id) then StateCollision
    else if |live| >= capacity then NoMemory
    else Success
  }

  function Added(live: seq<Record>, capacity: nat, r: Record): seq<Record> {
    if AddStatus(live, capacity, r.packetId) == Success then live + [r] else live
  }

  // ----- lemmas about Live

  lemma {:induction false} LiveConcat(a: seq<Record>, b: seq<Record>)
    ensures Live(a + b) == Live(a) + Live(b)
  {
    if a == [] {
      assert a + b == b;
    } else {
      assert (a + b)[1..] == a[1..] + b;
      LiveConcat(a[1..], b);
    }
  }

  lemma {:induction false} LiveAllFree(s: seq<Record>)
    requires forall r <- s :: IsFree(r)
    ensures Live(s) == []
  {
    if s != [] {
      assert IsFree(s[0]);
      LiveAllFree(s[1..]);
    }
  }

  lemma {:induction false} LiveAllUsed(s: seq<Record>)
    requires forall r <- s :: !IsFree(r)
    ensures Live(s) == s
  {
    if s != [] {
      assert !IsFree(s[0]);
      LiveAllUsed(s[1..]);
    }
  }

  /** The array is cut at slot k; the place of the slot in the live sequence is the size of the left part. */
  lemma {:induction false} LiveSplit(s: seq<Record>, k: nat)
    requires k < |s|
    ensures Live(s) == Live(s[..k]) + (if IsFree(s[k]) then [] else [s[k]]) + Live(s[k + 1..])
  {
    assert s == s[..k] + s[k..];
    LiveConcat(s[..k], s[k..]);
    assert s[k..][1..] == s[k + 1..];
  }

  lemma {:induction false} LiveUpdate(s: seq<Record>, k: nat, r: Record)
    requires k < |s|
    ensures Live(s[k := r]) == Live(s[..k]) + (if IsFree(r) then [] else [r]) + Live(s[k + 1..])
  {
    var t := s[k := r];
    LiveSplit(t, k);
    assert t[..k] == s[..k] && t[k + 1..] == s[k + 1..];
  }

  lemma {:induction false} LiveHasId(s: seq<Record>, id: PacketId)
    requires id != INVALID_ID
    ensures HasId(Live(s), id) <==> exists i :: 0 <= i < |s| && s[i].packetId == id
  {
    if s != [] {
      LiveHasId(s[1..], id);
      var rest := Live(s[1..]);
      if s[0].packetId == id {
        assert Live(s)[0].packetId == id;
      } else {
        if HasId(rest, id) {
          var i :| 0 <= i < |rest| && rest[i].packetId == id;
          assert Live(s)[if IsFree(s[0]) then i else i + 1].packetId == id;
          var k :| 0 <= k < |s[1..]| && s[1..][k].packetId == id;
          assert s[k + 1].packetId == id;
        }
        if i :| 0 <= i < |s| && s[i].packetId == id {
          assert s[1..][i - 1].packetId == id;
        }
        if HasId(Live(s), id) {
          var i :| 0 <= i < |Live(s)| && Live(s)[i].packetId == id;
          assert rest[if IsFree(s[0]) then i else i - 1].packetId == id;
        }
      }
    }
  }

  // ----- the operations

  /** Linear search; an absent id is reported by the length of the array and the null state. */
  method FindInRecord(a: array<Record>, id: PacketId) returns (index: nat, qos: QoS, state: PublishState)
    requires id != INVALID_ID
    ensures index <= a.Length
    ensures forall i :: 0 <= i < index ==> a[i].packetId != id
    ensures if index < a.Length then a[index] == Record(id, qos, state) else qos == QoS0 && state == StateNull
    ensures index == IndexOf(a[..], id)
    ensures index < a.Length <==> IndexOf(Live(a[..]), id) < |Live(a[..])|
    ensures index < a.Length ==>
              |Live(a[..index])| == IndexOf(Live(a[..]), id) && Live(a[..])[IndexOf(Live(a[..]), id)] == a[index]
  {
    qos, state := QoS0, StateNull;
    index := 0;
    while index < a.Length
      invariant index <= a.Length
      invariant forall i :: 0 <= i < index ==> a[i].packetId != id
      invariant qos == QoS0 && state == StateNull
    {
      if a[index].packetId == id {
        qos, state := a[index].qos, a[index].state;
        break;
      }
      index := index + 1;
    }
    LiveHasId(a[..], id);
    assert index < a.Length ==> a[..][index].packetId == id;
    if index < a.Length {
      FoundPlace(a[..], index, id);
    }
  }

  lemma {:induction false} FoundPlace(s: seq<Record>, k: nat, id: PacketId)
    requires k < |s| && id != INVALID_ID && s[k].packetId == id
    requires forall i :: 0 <= i < k ==> s[i].packetId != id
    ensures |Live(s[..k])| == IndexOf(Live(s), id) < |Live(s)|
    ensures Live(s)[IndexOf(Live(s), id)] == s[k]
  {
    LiveSplit(s, k);
    LiveHasId(s[..k], id);
    var live, n := Live(s), |Live(s[..k])|;
    assert live[n] == s[k];
    forall i | 0 <= i < n ensures live[i].packetId != id {
      assert live[i] == Live(s[..k])[i];
    }
  }

  predicate Compacted(s: seq<Record>) {
    forall i, j :: 0 <= i < j < |s| && !IsFree(s[j]) ==> !IsFree(s[i])
  }

  /** Moves every live record down over the free slots, in order. Only the id of a vacated slot is
      cleared: its state stays behind. */
  method CompactRecords(a: array<Record>)
    modifies a
    ensures Live(a[..]) == old(Live(a[..]))
    ensures Compacted(a[..])
  {
    ghost var before := a[..];
    var index := 0;
    var emptyIndex: nat := a.Length;
    while index < a.Length
      invariant index <= a.Length
      invariant emptyIndex == a.Length || emptyIndex < index
      invariant emptyIndex == a.Length ==> forall i :: 0 <= i < index ==> !IsFree(a[i])
      invariant emptyIndex < a.Length ==>
                  && (forall i :: 0 <= i < emptyIndex ==> !IsFree(a[i]))
                  && (forall i :: emptyIndex <= i < index ==> IsFree(a[i]))
      invariant Live(a[..]) == Live(before)
    {
      if IsFree(a[index]) {
        if emptyIndex == a.Length {
          emptyIndex := index;
        }
      } else if emptyIndex != a.Length {
        ghost var s := a[..];
        a[emptyIndex] := a[index];
        a[index] := a[index].(packetId := INVALID_ID);
        assert a[..] == s[emptyIndex := s[index]][index := s[index].(packetId := INVALID_ID)];
        MoveKeepsLive(s, emptyIndex, index);
        emptyIndex := emptyIndex + 1;
      }
      index := index + 1;
    }
  }

  lemma {:induction false} ClearFirst(s: seq<Record>, k: nat)
    requires k < |s| && !IsFree(s[k]) && forall i :: 0 <= i < k ==> IsFree(s[i])
    ensures Live(s) == [s[k]] + Live(s[k := s[k].(packetId := INVALID_ID)])
  {
    LiveAllFree(s[..k]);
    LiveSplit(s, k);
    LiveUpdate(s, k, s[k].(packetId := INVALID_ID));
  }

  lemma {:induction false} MoveKeepsLive(s: seq<Record>, to: nat, from: nat)
    requires to < from < |s| && IsFree(s[to]) && !IsFree(s[from])
    requires forall i :: to < i < from ==> IsFree(s[i])
    ensures Live(s[to := s[from]][from := s[from].(packetId := INVALID_ID)]) == Live(s)
  {
    var t := s[to := s[from]][from := s[from].(packetId := INVALID_ID)];
    ClearFirst(s[to + 1..], from - to - 1);
    assert t[..to] == s[..to];
    assert t[to + 1..] == s[to + 1..][from - to - 1 := s[from].(packetId := INVALID_ID)];
    LiveSplit(s, to);
    LiveSplit(t, to);
  }

  /** The first slot behind every live record. */
  function FirstFree(s: seq<Record>): (k: nat)
    ensures k <= |s|
    ensures forall i :: k <= i < |s| ==> IsFree(s[i])
    ensures k > 0 ==> !IsFree(s[k - 1])
  {
    if s == [] then 0
    else if IsFree(s[|s| - 1]) then FirstFree(s[..|s| - 1])
    else |s|
  }

  lemma {:induction false} LiveOfPrefix(s: seq<Record>, k: nat)
    requires k <= |s|
    requires forall i :: k <= i < |s| ==> IsFree(s[i])
    ensures Live(s) == Live(s[..k])
  {
    assert s == s[..k] + s[k..];
    LiveConcat(s[..k], s[k..]);
    LiveAllFree(s[k..]);
  }

  lemma {:induction false} AppendAtFirstFree(s: seq<Record>, r: Record)
    requires FirstFree(s) < |s| && !IsFree(r)
    ensures Live(s[FirstFree(s) := r]) == Live(s) + [r]
    ensures |Live(s)| < |s|
  {
    var k := FirstFree(s);
    LiveUpdate(s, k, r);
    LiveAllFree(s[k + 1..]);
    LiveOfPrefix(s, k);
  }

  lemma {:induction false} FullWhenNoTail(s: seq<Record>)
    requires Compacted(s) && FirstFree(s) == |s|
    ensures |Live(s)| == |s|
  {
    LiveAllUsed(s);
  }

  /** Appends a record behind the live ones, compacting first when the last slot is taken. */
  method AddRecord(a: array<Record>, id: PacketId, qos: QoS, state: PublishState) returns (status: Status)
    requires a.Length > 0 && id != INVALID_ID && qos != QoS0
    modifies a
    ensures status == AddStatus(old(Live(a[..])), a.Length, id)
    ensures Live(a[..]) == Added(old(Live(a[..])), a.Length, Record(id, qos, state))
    ensures status == Success && IsFree(old(a[a.Length - 1])) ==>
              FirstFree(old(a[..])) < a.Length && a[..] == old(a[..])[FirstFree(old(a[..])) := Record(id, qos, state)]
  {
    hide Live, Compacted, FirstFree;
    status := NoMemory;
    if !IsFree(a[a.Length - 1]) {
      CompactRecords(a);
    }
    ghost var s := a[..];
    assert IsFree(s[a.Length - 1]) || Compacted(s);
    var availableIndex := a.Length;
    var validEntryFound := false;
    var index := a.Length - 1;
    while index >= 0
      invariant -1 <= index < a.Length && a[..] == s
      invariant status == NoMemory
      invariant forall i :: index < i < a.Length ==> a[i].packetId != id
      invariant if validEntryFound
                then availableIndex == FirstFree(s)
                else availableIndex == index + 1 >= FirstFree(s)
    {
      if IsFree(a[index]) {
        if !validEntryFound {
          availableIndex := index;
        }
      } else {
        validEntryFound := true;
        if a[index].packetId == id {
          status := StateCollision;
          availableIndex := a.Length;
          break;
        }
      }
      index := index - 1;
    }
    LiveHasId(s, id);
    if availableIndex < a.Length {
      a[availableIndex] := Record(id, qos, state);
      status := Success;
      assert a[..] == s[availableIndex := Record(id, qos, state)];
      AppendAtFirstFree(s, Record(id, qos, state));
    } else if status == NoMemory {
      FullWhenNoTail(s);
    }
  }

  /** Deletes a record by clearing its id, or stores its new state. */
  method UpdateRecord(a: array<Record>, index: nat, state: PublishState, shouldDelete: bool)
    requires index < a.Length && !IsFree(a[index])
    modifies a
    ensures a[..] == old(a[..])[index := if shouldDelete then old(a[index]).(packetId := INVALID_ID)
                                         else old(a[index]).(state := state)]
    ensures var live, k := old(Live(a[..])), |old(Live(a[..index]))|;
            k < |live| && Live(a[..]) == if shouldDelete then Remove(live, k) else live[k := live[k].(state := state)]
  {
    ghost var s := a[..];
    if shouldDelete {
      a[index] := a[index].(packetId := INVALID_ID);
    } else {
      a[index] := a[index].(state := state);
    }
    assert a[..] == s[index := a[index]];
    SlotEdit(s, index, a[index]);
  }

  lemma {:induction false} SlotEdit(s: seq<Record>, index: nat, r: Record)
    requires index < |s| && !IsFree(s[index])
    ensures var live, k := Live(s), |Live(s[..index])|;
            && k < |live| && live[k] == s[index]
            && Live(s[index := r]) == if IsFree(r) then Remove(live, k) else live[k := r]
  {
    LiveSplit(s, index);
    LiveUpdate(s, index, r);
    MiddleEdit(Live(s[..index]), s[index], Live(s[index + 1..]), r);
  }

  lemma MiddleEdit(left: seq<Record>, x: Record, right: seq<Record>, r: Record)
    ensures Remove(left + [x] + right, |left|) == left + [] + right
    ensures (left + [x] + right)[|left| := r] == left + [r] + right
  {}

  /** Zeroes every slot. */
  method ClearRecords(a: array<Record>)
    modifies a
    ensures Live(a[..]) == []
    ensures forall i :: 0 <= i < a.Length ==> a[i] == Record(INVALID_ID, QoS0, StateNull)
  {
    forall i | 0 <= i < a.Length {
      a[i] := Record(INVALID_ID, QoS0, StateNull);
    }
    LiveAllFree(a[..]);
  }
}
