/**
 Decoding RDB messages (optional/vtd/src/rdb_codec.cpp): a walk over the length-prefixed entries
 of a message, and the protocol of frames and restarts around it.

 The structures of the VTD interface are not visible; an entry's header is modelled by the
 fields that the walk reads, and what lies in memory by the header found at each offset.
 */
module Rdb {
  import opened Prelude

  // ----- Messages -----

  const WORD: int := 0x1_0000_0000

  /** What the package identifier of an entry says: a frame marker, elements of an implemented
      type (`flagged` if the codec looks at the entry's flags for it), one of the types that are
      refused by an exception, or anything else. */
  datatype Package = StartOfFrame | EndOfFrame | Elements(name: string, flagged: bool) | Refused | Other

  datatype Header = Header(headerSize: nat, dataSize: nat, elementSize: nat, package: Package, extended: bool)

  /** `memory` has the entry header found at each offset from the start of the message. */
  datatype Message = Message(frameNo: nat, simTime: int, headerSize: nat, dataSize: nat, memory: map<nat, Header>)

  function Size(h: Header): nat { h.headerSize + h.dataSize }

  /** The `remaining` bytes from `offset` on are entries, one after the other. */
  predicate Chain(memory: map<nat, Header>, offset: nat, remaining: nat)
    decreases remaining
  {
    remaining > 0 ==>
      && offset in memory && 0 < Size(memory[offset]) <= remaining
      && Chain(memory, offset + Size(memory[offset]), remaining - Size(memory[offset]))
  }

  /** Where the entries do not add up, the counter does not tell: an entry that is larger than
      what remains makes it wrap around, and the walk goes on past the message. */
  lemma OvershootGoesOn(remaining: nat, size: nat)
    requires remaining < size < WORD
    ensures (remaining - size) % WORD == remaining - size + WORD > remaining
  {
  }

  predicate IsMessage(m: Message) {
    m.dataSize < WORD && Chain(m.memory, m.headerSize, m.dataSize)
  }

  // ----- The codec -----

  /** What the codec does for its subclasses, in order. */
  datatype Call =
    | Started | Ended
    | Element(name: string, at: nat, extended: bool)
    | Unimplemented

  datatype State = State(frame: nat, inFrame: bool, restart: bool, simTime: int, calls: seq<Call>, failed: bool)

  function Calls(s: State, calls: seq<Call>): State { s.(calls := s.calls + calls) }

  /** The calls for the elements of an entry from the i-th on. */
  function ElementCalls(h: Header, offset: nat, i: nat): seq<Call>
    requires h.elementSize > 0
    decreases h.dataSize / h.elementSize - i
  {
    if i >= h.dataSize / h.elementSize then []
    else
      [match h.package
       case Elements(name, flagged) =>
         Element(name, offset + h.headerSize + i * h.elementSize, flagged && h.extended)
       case _ => Unimplemented] + ElementCalls(h, offset, i + 1)
  }

  function AfterEntry(s: State, h: Header, offset: nat): State {
    if h.elementSize == 0 then
      match h.package
      case StartOfFrame => Calls(s.(inFrame := true), [Started])
      case EndOfFrame => Calls(s.(inFrame := false), [Ended])
      case _ => Calls(s, [Unimplemented])
    else if h.package.Refused? && h.dataSize / h.elementSize > 0 then s.(failed := true)
    else Calls(s, ElementCalls(h, offset, 0))
  }

  /** Walk over entries until no bytes remain, or an exception is thrown. */
  function Walk(s: State, memory: map<nat, Header>, offset: nat, remaining: nat): State
    requires Chain(memory, offset, remaining)
    decreases remaining
  {
    if remaining == 0 || s.failed then s
    else
      var h := memory[offset];
      Walk(AfterEntry(s, h, offset), memory, offset + Size(h), remaining - Size(h))
  }

  function AfterMessage(s: State, m: Option<Message>): State
    requires m.Some? ==> IsMessage(m.value)
  {
    if m.None? || m.value.dataSize == 0 then s
    else
      var s1 := s.(frame := m.value.frameNo);
      if s1.restart && s1.frame != 0 then s1
      else
        var s2 := s1.(restart := s1.restart && s1.frame != 0, simTime := m.value.simTime);
        Walk(s2, m.value.memory, m.value.headerSize, m.value.dataSize)
  }

  predicate AreMessages(ms: seq<Option<Message>>) {
    forall i | 0 <= i < |ms| :: ms[i].Some? ==> IsMessage(ms[i].value)
  }

  function AfterAll(s: State, ms: seq<Option<Message>>): State
    requires AreMessages(ms)
    decreases |ms|
  {
    if ms == [] || s.failed then s else AfterAll(AfterMessage(s, ms[0]), ms[1..])
  }

  /** Whether `step` has to go on. */
  predicate Waiting(s: State, frame: nat) { s.inFrame || s.frame < frame || s.restart }

  predicate AreBatches(batches: seq<seq<Option<Message>>>) {
    forall i | 0 <= i < |batches| :: AreMessages(batches[i])
  }

  /** The step to `frame`, with what is received meanwhile; and what is left of that. */
  function AfterStep(s: State, frame: nat, batches: seq<seq<Option<Message>>>): (State, seq<seq<Option<Message>>>)
    requires AreBatches(batches)
    decreases |batches|
  {
    if batches == [] || s.failed || !Waiting(s, frame) then (s, batches)
    else AfterStep(AfterAll(s, batches[0]), frame, batches[1..])
  }

  class RdbCodec {
    var frameNumber: nat
    var processingFrame: bool
    var simTime: int
    var restart: bool
    /** The calls made so far, and whether one of the codec's methods has thrown. */
    var calls: seq<Call>
    var failed: bool

    function View(): State
      reads this
    {
      State(frameNumber, processingFrame, restart, simTime, calls, failed)
    }

    constructor ()
      ensures View() == State(0, false, false, 0, [], false)
    {
      frameNumber, processingFrame, restart, simTime, calls, failed := 0, false, false, 0, [], false;
    }

    method ProcessEntry(h: Header, offset: nat)
      modifies this
      ensures View() == AfterEntry(old(View()), h, offset)
    {
      if h.elementSize == 0 {
        match h.package {
          case StartOfFrame =>
            processingFrame := true;
            calls := calls + [Started];
          case EndOfFrame =>
            processingFrame := false;
            calls := calls + [Ended];
          case _ =>
            calls := calls + [Unimplemented];
        }
      } else {
        ProcessElements(h, offset);
      }
    }

    method ProcessElements(h: Header, offset: nat)
      requires h.elementSize > 0
      modifies this`calls, this`failed
      ensures View() == AfterEntry(old(View()), h, offset)
    {
      var n := h.dataSize / h.elementSize;
      var data := offset + h.headerSize;
      var i := 0;
      while i < n
        invariant 0 <= i <= n && data == offset + h.headerSize + i * h.elementSize
        invariant (h.package.Refused? ==> i == 0) && (i == 0 ==> calls == old(calls))
        invariant View() == old(View()).(calls := calls)
        invariant calls + ElementCalls(h, offset, i) == old(calls) + ElementCalls(h, offset, 0)
        decreases n - i
      {
        ghost var before := calls;
        match h.package {
          case Elements(name, flagged) =>
            calls := calls + [Element(name, data, flagged && h.extended)];
          case Refused =>
            failed := true;
            return;
          case _ =>
            calls := calls + [Unimplemented];
        }
        assert calls + ElementCalls(h, offset, i + 1) == before + ElementCalls(h, offset, i);
        data := data + h.elementSize;
        i := i + 1;
      }
    }

    /** The counter of remaining bytes is a 32-bit word. */
    method ProcessMessage(message: Option<Message>)
      requires !failed
      requires message.Some? ==> IsMessage(message.value)
      modifies this
      ensures View() == AfterMessage(old(View()), message)
    {
      if message == None {
        return;
      }
      var m := message.value;
      if m.dataSize == 0 {
        return;
      }
      frameNumber := m.frameNo;
      if restart && frameNumber != 0 {
        return;
      }
      if frameNumber == 0 {
        restart := false;
      }
      simTime := m.simTime;
      var entry: nat := m.headerSize;
      var remainingBytes: nat := m.dataSize;
      ghost var s := View();
      while remainingBytes > 0
        invariant 0 <= remainingBytes < WORD && Chain(m.memory, entry, remainingBytes) && !failed
        invariant entry + remainingBytes == m.headerSize + m.dataSize
        invariant Walk(View(), m.memory, entry, remainingBytes) == Walk(s, m.memory, m.headerSize, m.dataSize)
        decreases remainingBytes
      {
        var h := m.memory[entry];
        ProcessEntry(h, entry);
        if failed {
          return;
        }
        remainingBytes := (remainingBytes - (h.headerSize + h.dataSize)) % WORD;
        entry := entry + h.headerSize + h.dataSize;
      }
    }

    /** Receive and process batches of messages until the frame is complete, or nothing more is
        described of what is received. */
    method Step(frame: nat, batches: seq<seq<Option<Message>>>) returns (rest: seq<seq<Option<Message>>>)
      requires !failed && AreBatches(batches)
      modifies this
      ensures (View(), rest) == AfterStep(old(View()), frame, batches)
    {
      rest := batches;
      while rest != [] && !failed && (processingFrame || frameNumber < frame || restart)
        invariant AreBatches(rest)
        invariant AfterStep(View(), frame, rest) == AfterStep(old(View()), frame, batches)
        decreases |rest|
      {
        var messages := rest[0];
        ghost var s := View();
        var i := 0;
        while i < |messages| && !failed
          invariant 0 <= i <= |messages| && AreMessages(messages[i..])
          invariant AfterAll(View(), messages[i..]) == AfterAll(s, messages)
          decreases |messages| - i
        {
          assert messages[i..][0] == messages[i] && messages[i..][1..] == messages[i + 1..];
          ProcessMessage(messages[i]);
          i := i + 1;
        }
        rest := rest[1..];
      }
    }
  }

  // ----- Elements -----

  /** The call for the i-th element: where it lies, and whether it is extended if that matters to its
      type; anything that is not implemented is said to be so. */
  function ElementCall(h: Header, offset: nat, i: nat): Call {
    if h.package.Elements? then
      Element(h.package.name, offset + h.headerSize + i * h.elementSize, h.package.flagged && h.extended)
    else Unimplemented
  }

  /** An entry with elements makes one call for each of them, in order, with the place where the
      element lies, which is inside the entry. */
  lemma {:induction false} ElementCallsAt(h: Header, offset: nat, i: nat, k: nat)
    requires h.elementSize > 0 && i + k < h.dataSize / h.elementSize
    ensures |ElementCalls(h, offset, i)| == h.dataSize / h.elementSize - i
    ensures ElementCalls(h, offset, i)[k] == ElementCall(h, offset, i + k)
    decreases h.dataSize / h.elementSize - i
  {
    if k > 0 {
      ElementCallsAt(h, offset, i + 1, k - 1);
    } else if i + 1 < h.dataSize / h.elementSize {
      ElementCallsAt(h, offset, i + 1, 0);
    }
  }

  lemma ElementInside(h: Header, offset: nat, i: nat)
    requires h.elementSize > 0 && i < h.dataSize / h.elementSize
    ensures offset + h.headerSize + (i + 1) * h.elementSize <= offset + Size(h)
  {
    var n := h.dataSize / h.elementSize;
    assert n * h.elementSize <= h.dataSize;
    assert (n - (i + 1)) * h.elementSize >= 0;
  }

  // ----- What a message says -----

  /** An entry and the offset that it lies at. */
  datatype Placed = Placed(header: Header, at: nat)

  /** The entries of a message, in order. */
  function Entries(memory: map<nat, Header>, offset: nat, remaining: nat): seq<Placed>
    requires Chain(memory, offset, remaining)
    decreases remaining
  {
    if remaining == 0 then []
    else
      var h := memory[offset];
      [Placed(h, offset)] + Entries(memory, offset + Size(h), remaining - Size(h))
  }

  /** The entry is of a type that is refused, and holds an element. */
  predicate IsRefused(h: Header) { h.package.Refused? && h.elementSize > 0 && h.dataSize >= h.elementSize }

  /** The entries before the first refused one. */
  function Before(es: seq<Placed>): seq<Placed> {
    if es == [] || IsRefused(es[0].header) then [] else [es[0]] + Before(es[1..])
  }

  lemma {:induction false} BeforeIs(es: seq<Placed>)
    ensures Before(es) <= es && forall i | 0 <= i < |Before(es)| :: !IsRefused(es[i].header)
    ensures Before(es) != es ==> |Before(es)| < |es| && IsRefused(es[|Before(es)|].header)
  {
    if es != [] && !IsRefused(es[0].header) {
      BeforeIs(es[1..]);
    }
  }

  /** What an entry makes the codec call: a marker is a frame's start or end, and elements are one
      call each. */
  function CallsFor(e: Placed): seq<Call> {
    var h := e.header;
    if h.elementSize > 0 then seq(h.dataSize / h.elementSize, i requires 0 <= i => ElementCall(h, e.at, i))
    else
      match h.package
      case StartOfFrame => [Started]
      case EndOfFrame => [Ended]
      case _ => [Unimplemented]
  }

  function CallsOf(es: seq<Placed>): seq<Call> {
    if es == [] then [] else CallsFor(es[0]) + CallsOf(es[1..])
  }

  /** Whether a frame is open after these entries: the last marker counts. */
  function Open(initially: bool, es: seq<Placed>): bool {
    if es == [] then initially
    else
      var h := es[|es| - 1].header;
      if h.elementSize == 0 && h.package == StartOfFrame then true
      else if h.elementSize == 0 && h.package == EndOfFrame then false
      else Open(initially, es[..|es| - 1])
  }

  lemma {:induction false} BeforeConcat(a: seq<Placed>, b: seq<Placed>)
    ensures Before(a + b) == if Before(a) == a then a + Before(b) else Before(a)
    decreases |a|
  {
    if a == [] {
      assert a + b == b && a + Before(b) == Before(b);
    } else if !IsRefused(a[0].header) {
      assert (a + b)[1..] == a[1..] + b;
      BeforeConcat(a[1..], b);
      assert [a[0]] + a[1..] == a;
      assert [a[0]] + (a[1..] + Before(b)) == a + Before(b);
      assert Before(a) == a <==> Before(a[1..]) == a[1..];
    }
  }

  lemma {:induction false} CallsConcat(a: seq<Placed>, b: seq<Placed>)
    ensures CallsOf(a + b) == CallsOf(a) + CallsOf(b)
    decreases |a|
  {
    if a == [] {
      assert a + b == b;
    } else {
      assert (a + b)[1..] == a[1..] + b;
      CallsConcat(a[1..], b);
      Append(CallsFor(a[0]), CallsOf(a[1..]), CallsOf(b));
    }
  }

  lemma {:induction false} OpenConcat(initially: bool, a: seq<Placed>, b: seq<Placed>)
    ensures Open(initially, a + b) == Open(Open(initially, a), b)
    decreases |b|
  {
    if b == [] {
      assert a + b == a;
    } else {
      assert (a + b)[..|a + b| - 1] == a + b[..|b| - 1];
      OpenConcat(initially, a, b[..|b| - 1]);
    }
  }

  lemma Append(a: seq<Call>, b: seq<Call>, c: seq<Call>)
    ensures a + b + c == a + (b + c)
  {
  }

  lemma ElementCallsAre(h: Header, offset: nat)
    requires h.elementSize > 0
    ensures ElementCalls(h, offset, 0) == CallsFor(Placed(h, offset))
  {
    var n := h.dataSize / h.elementSize;
    if n > 0 {
      ElementCallsAt(h, offset, 0, 0);
    }
    forall k | 0 <= k < n ensures ElementCalls(h, offset, 0)[k] == ElementCall(h, offset, k) {
      ElementCallsAt(h, offset, 0, k);
    }
  }

  lemma RefusedHasElements(h: Header)
    requires h.elementSize > 0
    ensures h.dataSize / h.elementSize > 0 <==> h.dataSize >= h.elementSize
  {
    var n, r := h.dataSize / h.elementSize, h.dataSize % h.elementSize;
    assert h.dataSize == n * h.elementSize + r;
    if n > 0 {
      assert (n - 1) * h.elementSize >= 0;
    }
  }

  /** One entry: its calls, and its marker; a refused one throws before anything is called. */
  lemma EntryIs(s: State, h: Header, offset: nat)
    ensures AfterEntry(s, h, offset) ==
      if IsRefused(h) then s.(failed := true)
      else s.(calls := s.calls + CallsFor(Placed(h, offset)), inFrame := Open(s.inFrame, [Placed(h, offset)]))
  {
    assert [Placed(h, offset)][..0] == [];
    if h.elementSize > 0 {
      RefusedHasElements(h);
      ElementCallsAre(h, offset);
    }
  }

  /** `s` with the calls and the markers of the entries before the first refused one. */
  function Handle(s: State, es: seq<Placed>): State {
    s.(calls := s.calls + CallsOf(Before(es)), inFrame := Open(s.inFrame, Before(es)), failed := Before(es) != es)
  }

  lemma HandleFirst(s: State, e: Placed, rest: seq<Placed>)
    requires !IsRefused(e.header) && !s.failed
    ensures Handle(s, [e] + rest)
         == Handle(s.(calls := s.calls + CallsFor(e), inFrame := Open(s.inFrame, [e])), rest)
  {
    var done := Before(rest);
    assert ([e] + rest)[1..] == rest && ([e] + done)[1..] == done;
    Append(s.calls, CallsFor(e), CallsOf(done));
    OpenConcat(s.inFrame, [e], done);
  }

  lemma HandleRefused(s: State, e: Placed, rest: seq<Placed>)
    requires IsRefused(e.header)
    ensures Handle(s, [e] + rest) == s.(failed := true)
  {
    assert s.calls + [] == s.calls;
  }

  /** Walking over a message makes the calls of its entries, in order, and throws exactly at the
      first refused one. */
  lemma {:induction false} WalkIs(s: State, memory: map<nat, Header>, offset: nat, remaining: nat)
    requires Chain(memory, offset, remaining) && !s.failed
    ensures Walk(s, memory, offset, remaining) == Handle(s, Entries(memory, offset, remaining))
    decreases remaining
  {
    if remaining == 0 {
      assert s.calls + [] == s.calls;
    } else {
      var h := memory[offset];
      var next, left := offset + Size(h), remaining - Size(h);
      var s1 := AfterEntry(s, h, offset);
      EntryIs(s, h, offset);
      if IsRefused(h) {
        HandleRefused(s, Placed(h, offset), Entries(memory, next, left));
        assert Walk(s1, memory, next, left) == s1;
      } else {
        HandleFirst(s, Placed(h, offset), Entries(memory, next, left));
        WalkIs(s1, memory, next, left);
      }
    }
  }

  // ----- Encoding -----

  function Total(entries: seq<Header>): nat {
    if entries == [] then 0 else Size(entries[0]) + Total(entries[1..])
  }

  /** Memory with the entries one after the other. */
  function Encode(entries: seq<Header>, offset: nat): map<nat, Header> {
    if entries == [] then map[]
    else Encode(entries[1..], offset + Size(entries[0]))[offset := entries[0]]
  }

  /** The entries with their places. */
  function Place(entries: seq<Header>, offset: nat): seq<Placed> {
    if entries == [] then [] else [Placed(entries[0], offset)] + Place(entries[1..], offset + Size(entries[0]))
  }

  lemma {:induction false} PlaceAt(entries: seq<Header>, offset: nat, i: nat)
    requires i < |entries|
    ensures |Place(entries, offset)| == |entries|
    ensures Place(entries, offset)[i] == Placed(entries[i], offset + Total(entries[..i]))
    decreases |entries|
  {
    if i > 0 {
      PlaceAt(entries[1..], offset + Size(entries[0]), i - 1);
      assert entries[..i][1..] == entries[1..][..i - 1];
    } else if |entries| > 1 {
      PlaceAt(entries[1..], offset + Size(entries[0]), 0);
    }
  }

  lemma {:induction false} EncodeAbove(entries: seq<Header>, offset: nat, k: nat)
    requires k in Encode(entries, offset)
    ensures k >= offset
  {
    if entries != [] && k != offset {
      EncodeAbove(entries[1..], offset + Size(entries[0]), k);
    }
  }

  /** The entries lie in memory from `offset` on. */
  predicate Stores(memory: map<nat, Header>, entries: seq<Header>, offset: nat) {
    forall k | k in Encode(entries, offset) :: k in memory && memory[k] == Encode(entries, offset)[k]
  }

  lemma StoresRest(memory: map<nat, Header>, entries: seq<Header>, offset: nat)
    requires entries != [] && Stores(memory, entries, offset) && Size(entries[0]) > 0
    ensures offset in memory && memory[offset] == entries[0]
    ensures Stores(memory, entries[1..], offset + Size(entries[0]))
  {
    var next := offset + Size(entries[0]);
    assert offset in Encode(entries, offset);
    forall k | k in Encode(entries[1..], next) ensures k in memory && memory[k] == Encode(entries[1..], next)[k] {
      EncodeAbove(entries[1..], next, k);
      assert k in Encode(entries, offset);
    }
  }

  /** Decoding is undoing encoding: the message holds these entries, each at its place, and no byte
      besides. */
  lemma {:induction false} EncodedEntries(entries: seq<Header>, offset: nat, memory: map<nat, Header>)
    requires forall i | 0 <= i < |entries| :: Size(entries[i]) > 0
    requires Stores(memory, entries, offset)
    ensures Chain(memory, offset, Total(entries))
    ensures Entries(memory, offset, Total(entries)) == Place(entries, offset)
    decreases |entries|
  {
    if entries != [] {
      StoresRest(memory, entries, offset);
      EncodedEntries(entries[1..], offset + Size(entries[0]), memory);
    }
  }

  /** Decoding an encoded sequence of entries handles each entry once, in order, at its place, up
      to the first refused one. */
  lemma WalkEncoded(s: State, entries: seq<Header>, offset: nat, memory: map<nat, Header>)
    requires !s.failed && forall i | 0 <= i < |entries| :: Size(entries[i]) > 0
    requires Stores(memory, entries, offset)
    ensures Chain(memory, offset, Total(entries))
    ensures Walk(s, memory, offset, Total(entries)) == Handle(s, Place(entries, offset))
  {
    EncodedEntries(entries, offset, memory);
    WalkIs(s, memory, offset, Total(entries));
  }

  lemma {:induction false} BeforePlaced(entries: seq<Header>, offset: nat, n: nat)
    requires n <= |entries| && forall i | 0 <= i < n :: !IsRefused(entries[i])
    requires n < |entries| ==> IsRefused(entries[n])
    ensures Before(Place(entries, offset)) == Place(entries[..n], offset)
    ensures Before(Place(entries, offset)) == Place(entries, offset) <==> n == |entries|
    decreases |entries|
  {
    if entries != [] && n > 0 {
      BeforePlaced(entries[1..], offset + Size(entries[0]), n - 1);
      assert entries[..n][0] == entries[0] && entries[..n][1..] == entries[1..][..n - 1];
      assert Place(entries, offset)[1..] == Place(entries[1..], offset + Size(entries[0]));
      assert Before(Place(entries, offset))[1..] == Before(Place(entries[1..], offset + Size(entries[0])));
    }
  }

  /** Decoding throws exactly if there is an entry that is refused; then the entries before the first
      such one have been handled, and no others. */
  lemma WalkRefused(s: State, entries: seq<Header>, offset: nat, memory: map<nat, Header>, n: nat)
    requires !s.failed && forall i | 0 <= i < |entries| :: Size(entries[i]) > 0
    requires n <= |entries| && forall i | 0 <= i < n :: !IsRefused(entries[i])
    requires n < |entries| ==> IsRefused(entries[n])
    requires Stores(memory, entries, offset)
    ensures Chain(memory, offset, Total(entries))
    ensures var done := Place(entries[..n], offset);
      Walk(s, memory, offset, Total(entries)) ==
        s.(calls := s.calls + CallsOf(done), inFrame := Open(s.inFrame, done), failed := n < |entries|)
  {
    WalkEncoded(s, entries, offset, memory);
    BeforePlaced(entries, offset, n);
  }

  // ----- Frames and restarts -----

  /** The messages that are not empty, and not discarded because of a restart. */
  function Heeded(restart: bool, ms: seq<Option<Message>>): (r: seq<Message>)
    requires AreMessages(ms)
    ensures forall m | m in r :: IsMessage(m)
    decreases |ms|
  {
    if ms == [] then []
    else if ms[0].None? || ms[0].value.dataSize == 0 || (restart && ms[0].value.frameNo != 0) then Heeded(restart, ms[1..])
    else
      assert IsMessage(ms[0].value);
      [ms[0].value] + Heeded(false, ms[1..])
  }

  /** All their entries. */
  function Stream(ms: seq<Message>): seq<Placed>
    requires forall m | m in ms :: IsMessage(m)
  {
    if ms == [] then []
    else
      assert ms[0] in ms && IsMessage(ms[0]);
      Entries(ms[0].memory, ms[0].headerSize, ms[0].dataSize) + Stream(ms[1..])
  }

  function Said(restart: bool, ms: seq<Option<Message>>): seq<Placed>
    requires AreMessages(ms)
  {
    Stream(Heeded(restart, ms))
  }

  /** The frame of the last message that is not empty, discarded or not. */
  function FrameOf(frame: nat, ms: seq<Option<Message>>): nat {
    if ms == [] then frame
    else
      var m := ms[|ms| - 1];
      if m.Some? && m.value.dataSize > 0 then m.value.frameNo else FrameOf(frame, ms[..|ms| - 1])
  }

  function TimeOf(time: int, ms: seq<Message>): int {
    if ms == [] then time else ms[|ms| - 1].simTime
  }

  /** The message is one that ends a restart. */
  predicate EndsRestart(m: Option<Message>) {
    m.Some? && m.value.dataSize > 0 && m.value.frameNo == 0
  }

  /** A restart is pending until a message of frame 0. */
  predicate Pending(restart: bool, ms: seq<Option<Message>>) {
    restart && forall i | 0 <= i < |ms| :: !EndsRestart(ms[i])
  }

  lemma {:induction false} FrameFirst(frame: nat, ms: seq<Option<Message>>)
    requires ms != []
    ensures FrameOf(frame, ms)
         == FrameOf(if ms[0].Some? && ms[0].value.dataSize > 0 then ms[0].value.frameNo else frame, ms[1..])
    decreases |ms|
  {
    if |ms| > 1 {
      var front := ms[..|ms| - 1];
      assert ms[1..][|ms[1..]| - 1] == ms[|ms| - 1] && ms[1..][..|ms[1..]| - 1] == front[1..];
      FrameFirst(frame, front);
    } else {
      assert ms[..0] == [];
    }
  }

  lemma TimeFirst(time: int, m: Message, ms: seq<Message>)
    ensures TimeOf(time, [m] + ms) == TimeOf(m.simTime, ms)
  {
  }

  lemma PendingFirst(restart: bool, ms: seq<Option<Message>>)
    requires ms != []
    ensures Pending(restart, ms) <==> Pending(restart && !EndsRestart(ms[0]), ms[1..])
  {
    assert forall i | 0 < i < |ms| :: ms[i] == ms[1..][i - 1];
  }

  /** One message that is heeded. */
  lemma MessageIs(s: State, m: Message)
    requires IsMessage(m) && m.dataSize > 0 && !(s.restart && m.frameNo != 0) && !s.failed
    ensures var es := Entries(m.memory, m.headerSize, m.dataSize);
      AfterMessage(s, Some(m)) ==
        State(m.frameNo, Open(s.inFrame, Before(es)), false, m.simTime, s.calls + CallsOf(Before(es)), Before(es) != es)
  {
    var s2 := s.(frame := m.frameNo, restart := false, simTime := m.simTime);
    WalkIs(s2, m.memory, m.headerSize, m.dataSize);
  }

  /** What the state is after some messages, told from the messages alone. */
  predicate IsAfter(s: State, ms: seq<Option<Message>>, r: State)
    requires AreMessages(ms)
  {
    var es := Said(s.restart, ms);
    && r.calls == s.calls + CallsOf(Before(es))
    && r.inFrame == Open(s.inFrame, Before(es))
    && (r.failed <==> Before(es) != es)
    && (!r.failed ==>
          && r.frame == FrameOf(s.frame, ms)
          && r.restart == Pending(s.restart, ms)
          && r.simTime == TimeOf(s.simTime, Heeded(s.restart, ms)))
  }

  lemma {:induction false} AllIs(s: State, ms: seq<Option<Message>>)
    requires AreMessages(ms) && !s.failed
    ensures IsAfter(s, ms, AfterAll(s, ms))
    decreases |ms|
  {
    if ms == [] {
      assert s.calls + [] == s.calls;
    } else {
      FrameFirst(s.frame, ms);
      PendingFirst(s.restart, ms);
      var s1 := AfterMessage(s, ms[0]);
      if ms[0].None? || ms[0].value.dataSize == 0 || (s.restart && ms[0].value.frameNo != 0) {
        AllIs(s1, ms[1..]);
      } else {
        HeededIs(s, ms);
      }
    }
  }

  lemma {:induction false} HeededIs(s: State, ms: seq<Option<Message>>)
    requires AreMessages(ms) && !s.failed && ms != [] && ms[0].Some? && ms[0].value.dataSize > 0
    requires !(s.restart && ms[0].value.frameNo != 0)
    ensures IsAfter(s, ms, AfterAll(s, ms))
    decreases |ms|, 0
  {
    var m, rest, s1 := ms[0].value, ms[1..], AfterMessage(s, ms[0]);
    var later := Heeded(false, rest);
    MessageIs(s, m);
    FrameFirst(s.frame, ms);
    PendingFirst(s.restart, ms);
    TimeFirst(s.simTime, m, later);
    var a, b := Entries(m.memory, m.headerSize, m.dataSize), Stream(later);
    assert Heeded(s.restart, ms) == [m] + later && ([m] + later)[1..] == later;
    BeforeConcat(a, b);
    if s1.failed {
      assert AfterAll(s1, rest) == s1;
      BeforeIs(a);
    } else {
      AllIs(s1, rest);
      CallsConcat(a, Before(b));
      OpenConcat(s.inFrame, a, Before(b));
      Append(s.calls, CallsOf(a), CallsOf(Before(b)));
      assert a + Before(b) == a + b <==> Before(b) == b by {
        assert (a + Before(b))[|a|..] == Before(b) && (a + b)[|a|..] == b;
      }
    }
  }

  function Flat(batches: seq<seq<Option<Message>>>): seq<Option<Message>> {
    if batches == [] then [] else batches[0] + Flat(batches[1..])
  }

  lemma {:induction false} FlatAreMessages(batches: seq<seq<Option<Message>>>)
    requires AreBatches(batches)
    ensures AreMessages(Flat(batches))
  {
    if batches != [] {
      FlatAreMessages(batches[1..]);
    }
  }

  lemma {:induction false} AllConcat(s: State, a: seq<Option<Message>>, b: seq<Option<Message>>)
    requires AreMessages(a) && AreMessages(b)
    ensures AreMessages(a + b) && AfterAll(s, a + b) == AfterAll(AfterAll(s, a), b)
    decreases |a|
  {
    if a == [] {
      assert a + b == b;
    } else if !s.failed {
      assert (a + b)[1..] == a[1..] + b;
      AllConcat(AfterMessage(s, a[0]), a[1..], b);
    }
  }

  /** The state after all messages of these batches. */
  function AfterBatches(s: State, batches: seq<seq<Option<Message>>>): State
    requires AreBatches(batches)
  {
    FlatAreMessages(batches);
    AfterAll(s, Flat(batches))
  }

  lemma AfterMore(s: State, batches: seq<seq<Option<Message>>>)
    requires AreBatches(batches) && batches != []
    ensures AfterBatches(s, batches) == AfterBatches(AfterAll(s, batches[0]), batches[1..])
  {
    FlatAreMessages(batches[1..]);
    AllConcat(s, batches[0], Flat(batches[1..]));
  }

  /** A step takes in batches one by one while it has to wait, and leaves the others. */
  lemma {:induction false} StepTakes(s: State, frame: nat, batches: seq<seq<Option<Message>>>)
    requires AreBatches(batches) && !s.failed
    ensures var (s', rest) := AfterStep(s, frame, batches);
      var n := |batches| - |rest|;
      && 0 <= n && rest == batches[n..] && s' == AfterBatches(s, batches[..n])
      && (rest != [] ==> s'.failed || !Waiting(s', frame))
      && (forall k | 0 <= k < n :: GoesOn(AfterBatches(s, batches[..k]), frame))
    decreases |batches|
  {
    if batches == [] || !Waiting(s, frame) {
      assert batches[..0] == [] && batches[0..] == batches;
    } else {
      var s1 := AfterAll(s, batches[0]);
      var (s', rest) := AfterStep(s1, frame, batches[1..]);
      if s1.failed {
        assert rest == batches[1..];
        AfterMore(s, batches[..1]);
        assert batches[..1][0] == batches[0] && batches[..1][1..] == [];
        assert batches[..0] == [];
      } else {
        StepTakes(s1, frame, batches[1..]);
        var n := |batches| - |rest|;
        MoreOfRest(s, batches, n);
        forall k | 0 <= k < n ensures GoesOn(AfterBatches(s, batches[..k]), frame) {
          if k > 0 {
            MoreOfRest(s, batches, k);
          } else {
            assert batches[..0] == [];
          }
        }
      }
    }
  }

  predicate GoesOn(s: State, frame: nat) { !s.failed && Waiting(s, frame) }

  lemma MoreOfRest(s: State, batches: seq<seq<Option<Message>>>, k: nat)
    requires AreBatches(batches) && 0 < k <= |batches|
    ensures AfterBatches(s, batches[..k]) == AfterBatches(AfterAll(s, batches[0]), batches[1..][..k - 1])
  {
    assert batches[..k][0] == batches[0] && batches[..k][1..] == batches[1..][..k - 1];
    AfterMore(s, batches[..k]);
  }

  /** What was received so far leaves a frame open, or does not reach the frame asked for, or leaves a
      restart pending. */
  predicate Lacking(s: State, frame: nat, received: seq<Option<Message>>)
    requires AreMessages(received)
  {
    || Open(s.inFrame, Before(Said(s.restart, received)))
    || FrameOf(s.frame, received) < frame
    || Pending(s.restart, received)
  }

  /** How many batches a step takes in. */
  function Received(s: State, frame: nat, batches: seq<seq<Option<Message>>>): (n: nat)
    requires AreBatches(batches)
    ensures n <= |batches|
  {
    StepLeavesFewer(s, frame, batches);
    |batches| - |AfterStep(s, frame, batches).1|
  }

  lemma {:induction false} StepLeavesFewer(s: State, frame: nat, batches: seq<seq<Option<Message>>>)
    requires AreBatches(batches)
    ensures |AfterStep(s, frame, batches).1| <= |batches|
    decreases |batches|
  {
    if batches != [] && !s.failed && Waiting(s, frame) {
      StepLeavesFewer(AfterAll(s, batches[0]), frame, batches[1..]);
    }
  }

  /** What a step has received. */
  function Intake(s: State, frame: nat, batches: seq<seq<Option<Message>>>): (ms: seq<Option<Message>>)
    requires AreBatches(batches)
    ensures AreMessages(ms)
  {
    FlatAreMessages(batches[..Received(s, frame, batches)]);
    Flat(batches[..Received(s, frame, batches)])
  }

  lemma StepIsIntake(s: State, frame: nat, batches: seq<seq<Option<Message>>>)
    requires AreBatches(batches) && !s.failed
    ensures AfterStep(s, frame, batches).0 == AfterAll(s, Intake(s, frame, batches))
  {
    StepTakes(s, frame, batches);
  }

  /** What a step has done is told by the messages it received. */
  lemma StepMarked(s: State, frame: nat, batches: seq<seq<Option<Message>>>)
    requires AreBatches(batches) && !s.failed
    ensures IsAfter(s, Intake(s, frame, batches), AfterStep(s, frame, batches).0)
  {
    StepIsIntake(s, frame, batches);
    AllIs(s, Intake(s, frame, batches));
  }

  lemma WaitingIsLacking(s: State, frame: nat, ms: seq<Option<Message>>)
    requires AreMessages(ms) && !s.failed && !AfterAll(s, ms).failed
    ensures Waiting(AfterAll(s, ms), frame) <==> Lacking(s, frame, ms)
  {
    AllIs(s, ms);
  }

  /** A step that has come to its end has received what it needs: no frame is open, the one asked for
      is reached, and no restart is pending. */
  lemma StepEnds(s: State, frame: nat, batches: seq<seq<Option<Message>>>)
    requires AreBatches(batches) && !s.failed
    ensures var (s', rest) := AfterStep(s, frame, batches);
      && rest == batches[Received(s, frame, batches)..]
      && (rest != [] && !s'.failed ==> !Lacking(s, frame, Intake(s, frame, batches)))
  {
    StepTakes(s, frame, batches);
    var s' := AfterStep(s, frame, batches).0;
    if !s'.failed {
      WaitingIsLacking(s, frame, Intake(s, frame, batches));
    }
  }

  /** It takes in no batch that it does not need. */
  lemma StepGoesOn(s: State, frame: nat, batches: seq<seq<Option<Message>>>, k: nat)
    requires AreBatches(batches) && !s.failed && k < Received(s, frame, batches)
    ensures AreMessages(Flat(batches[..k])) && Lacking(s, frame, Flat(batches[..k]))
  {
    StepTakes(s, frame, batches);
    FlatAreMessages(batches[..k]);
    assert GoesOn(AfterBatches(s, batches[..k]), frame);
    WaitingIsLacking(s, frame, Flat(batches[..k]));
  }

  lemma {:induction false} NothingHeeded(ms: seq<Option<Message>>)
    requires AreMessages(ms) && Pending(true, ms)
    ensures Heeded(true, ms) == []
    decreases |ms|
  {
    if ms != [] {
      assert !EndsRestart(ms[0]);
      PendingFirst(true, ms);
      NothingHeeded(ms[1..]);
    }
  }

  lemma {:induction false} FlatConcat(a: seq<seq<Option<Message>>>, b: seq<seq<Option<Message>>>)
    ensures Flat(a + b) == Flat(a) + Flat(b)
    decreases |a|
  {
    if a == [] {
      assert a + b == b;
    } else {
      assert (a + b)[0] == a[0] && (a + b)[1..] == a[1..] + b;
      FlatConcat(a[1..], b);
      MessagesAssociate(a[0], Flat(a[1..]), Flat(b));
    }
  }

  lemma MessagesAssociate(a: seq<Option<Message>>, b: seq<Option<Message>>, c: seq<Option<Message>>)
    ensures a + b + c == a + (b + c)
  {
  }

  /** Where no message ends a restart, none of the messages received by then does. */
  lemma PendingBefore(batches: seq<seq<Option<Message>>>, n: nat)
    requires n <= |batches| && Pending(true, Flat(batches))
    ensures Pending(true, Flat(batches[..n]))
  {
    FlatConcat(batches[..n], batches[n..]);
    assert batches[..n] + batches[n..] == batches;
    var received := Flat(batches[..n]);
    assert forall i | 0 <= i < |received| :: received[i] == Flat(batches)[i];
  }

  /** Once a restart has been requested, a step handles nothing until a message of frame 0 comes,
      and it does not end before. */
  lemma RestartDiscards(s: State, frame: nat, batches: seq<seq<Option<Message>>>)
    requires AreBatches(batches) && s.restart && !s.failed && Pending(true, Flat(batches))
    ensures var (s', rest) := AfterStep(s, frame, batches);
      rest == [] && s' == s.(frame := FrameOf(s.frame, Flat(batches)))
  {
    var received := Intake(s, frame, batches);
    PendingBefore(batches, Received(s, frame, batches));
    NothingHeeded(received);
    StepMarked(s, frame, batches);
    assert s.calls + [] == s.calls;
    StepEnds(s, frame, batches);
    assert batches[..|batches|] == batches;
  }

  /** The restart is still pending after a step that did not fail exactly if no message of frame 0
      was received in it. */
  lemma RestartPendsIff(s: State, frame: nat, batches: seq<seq<Option<Message>>>)
    requires AreBatches(batches) && !s.failed && !AfterStep(s, frame, batches).0.failed
    ensures AfterStep(s, frame, batches).0.restart <==>
      s.restart && forall i | 0 <= i < |Intake(s, frame, batches)| :: !EndsRestart(Intake(s, frame, batches)[i])
  {
    StepMarked(s, frame, batches);
  }
}
