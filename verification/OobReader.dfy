/** The out-of-band reader: an incremental post-order traversal of a forest of records, with an
    explicit stack instead of recursion.
  */
module OobReading {
  import opened BinlogFormat
  import opened ChunkReading
  import opened OobForest
  import C = CompressedInt

  /** What is read to parse a record header. */
  const HEADER_BUFFER: nat := 5 * C.MAX64

  /** A header is five integers of at least one byte, so this much data can follow it in the
      header buffer. */
  const MAX_EXCESS: nat := HEADER_BUFFER - 5

  // ----- the header of an out-of-band record -----

  datatype Header = ShortHeader | Header(left: Addr, right: Addr, len: nat)

  /** Node index, left child, right child. */
  function ParseHeader(b: seq<Byte>): (h: Header)
    ensures h.Header? ==> 5 <= h.len <= |b| && h.len <= HEADER_BUFFER
  {
    var index := C.Read(b, 0);
    if index.Short? then ShortHeader else
    var leftFile := C.Read(b, index.next);
    if leftFile.Short? then ShortHeader else
    var leftOffset := C.Read(b, leftFile.next);
    if leftOffset.Short? then ShortHeader else
    var rightFile := C.Read(b, leftOffset.next);
    if rightFile.Short? then ShortHeader else
    var rightOffset := C.Read(b, rightFile.next);
    if rightOffset.Short? then ShortHeader else
    Header(Addr(leftFile.value, leftOffset.value), Addr(rightFile.value, rightOffset.value), rightOffset.next)
  }

  function Take(b: seq<Byte>, n: nat): seq<Byte> {
    if |b| <= n then b else b[..n]
  }

  /** The header always fits in the header buffer, so reading only that much loses nothing. */
  lemma HeaderFits(b: seq<Byte>)
    ensures ParseHeader(Take(b, HEADER_BUFFER)) == ParseHeader(b)
  {
    var k := HEADER_BUFFER;
    if |b| > k {
      C.ReadInPrefix(b, k, 0);
      var index := C.Read(b, 0);
      if index.Int? {
        C.ReadInPrefix(b, k, index.next);
        var leftFile := C.Read(b, index.next);
        if leftFile.Int? {
          C.ReadInPrefix(b, k, leftFile.next);
          var leftOffset := C.Read(b, leftFile.next);
          if leftOffset.Int? {
            C.ReadInPrefix(b, k, leftOffset.next);
            var rightFile := C.Read(b, leftOffset.next);
            if rightFile.Int? {
              C.ReadInPrefix(b, k, rightFile.next);
            }
          }
        }
      }
    }
  }

  // ----- the heap of out-of-band records of a log -----

  ghost predicate IsNode(r: Record) {
    r.Whole? && r.rtype == TYPE_OOB_DATA && ParseHeader(r.data).Header?
  }

  function NodeOf(r: Record): Node
    requires r.Whole? && ParseHeader(r.data).Header?
  {
    var h := ParseHeader(r.data);
    Node(h.left, h.right, r.data[h.len..])
  }

  ghost function RecordAt(log: Log, a: Addr): Record {
    NextRecord(log, PosOf(a.file, a.offset), false)
  }

  /** Torn: a broken record, or a node without data, which is never written. */
  ghost predicate IsTorn(log: Log, a: Addr) {
    var r := RecordAt(log, a);
    r == Broken || (IsNode(r) && NodeOf(r).data == [])
  }

  ghost function HeapOf(log: Log): Heap {
    imap a | !IsTorn(log, a) :: if IsNode(RecordAt(log, a)) then NodeOf(RecordAt(log, a)) else Faulty
  }

  // ----- the traversal state -----

  datatype OobState = Initial | PriorTrees | LeftChild | RightChild | Self

  datatype Entry = Entry(
    saved: Position,        // the position after the header
    at: Addr,
    right: Addr,
    buf: seq<Byte>,         // what was read to parse the header
    sofar: nat,             // how much of it has been used
    state: OobState,
    leftmost: bool)

  /** The bytes of the current record that the chunk reader has not delivered yet. */
  ghost function Undelivered(log: Log, s: Position): seq<Byte> {
    if Sound(log, s) && s.inRecord && Ahead(log, s, false).Whole? then Ahead(log, s, false).data else []
  }

  /** The chunk reader is inside a complete record, or at the end of one. */
  ghost predicate Settled(log: Log, s: Position) {
    Sound(log, s) && !s.skipCurrent && (s.inRecord ==> Ahead(log, s, false).Whole?)
  }

  /** The unused part of the header buffer, and the rest of the record. */
  ghost function Rest(log: Log, e: Entry, s: Position): seq<Byte> {
    if e.sofar <= |e.buf| then e.buf[e.sofar..] + Undelivered(log, s) else []
  }

  ghost function Data(h: Heap, a: Addr): seq<Byte> {
    if a in h && h[a].Node? then h[a].data else []
  }

  /** What an entry below the top satisfies, and the top entry before its data is read. */
  ghost predicate EntryOk(log: Log, e: Entry) {
    var h := HeapOf(log);
    match e.state
    case Initial => Finite(h, e.at, e.leftmost)
    case Self => false
    case _ =>
      && Data(h, e.at) != [] && e.sofar <= |e.buf| <= e.sofar + MAX_EXCESS
      && Settled(log, e.saved) && Rest(log, e, e.saved) == Data(h, e.at)
      && (e.state == LeftChild ==> Finite(h, e.right, false))
  }

  /** The top entry while its data is being read: the chunk reader stands in its record. */
  ghost predicate SelfOk(log: Log, e: Entry, s: Position) {
    e.state == Self && e.sofar <= |e.buf| <= e.sofar + MAX_EXCESS && Settled(log, s) && Rest(log, e, s) != []
  }

  ghost predicate StackOk(log: Log, stack: seq<Entry>, s: Position) {
    && (forall i :: 0 <= i < |stack| - 1 ==> EntryOk(log, stack[i]))
    && (stack != [] ==> var top := stack[|stack| - 1]; EntryOk(log, top) || SelfOk(log, top, s))
  }

  /** What the entry will still produce by itself. */
  ghost function Owed(log: Log, e: Entry, s: Position): Flow {
    var h := HeapOf(log);
    match e.state
    case Initial => Contents(h, e.at, e.leftmost)
    case LeftChild => Contents(h, e.right, false).Then(Flow(Data(h, e.at), Done))
    case Self => Flow(Rest(log, e, s), Done)
    case _ => Flow(Data(h, e.at), Done)
  }

  /** Everything still to come, from the top of the stack down. */
  ghost function Pending(log: Log, stack: seq<Entry>, s: Position): Flow {
    if stack == [] then Flow([], Done)
    else Owed(log, stack[|stack| - 1], s).Then(Pending(log, stack[..|stack| - 1], s))
  }

  ghost function EntryTurns(log: Log, e: Entry): nat {
    var h := HeapOf(log);
    match e.state
    case Initial => Turns(h, e.at, e.leftmost)
    case LeftChild => Turns(h, e.right, false) + 2
    case Self => 0
    case _ => 1
  }

  ghost function TurnsLeft(log: Log, stack: seq<Entry>): nat {
    if stack == [] then 0 else EntryTurns(log, stack[|stack| - 1]) + TurnsLeft(log, stack[..|stack| - 1])
  }

  /** The data bytes of the node at `a` when its whole record fits in the header buffer, else 0. */
  ghost function Buffered(log: Log, a: Addr): nat {
    var r := RecordAt(log, a);
    if r.Whole? && |r.data| <= HEADER_BUFFER then |Data(HeapOf(log), a)| else 0
  }

  /** How many bytes the next call has to take at once: what the header buffer holds of the
      next node, when that is all of its record. */
  ghost function MustTake(log: Log, e: Entry, s: Position): nat {
    match e.state
    case Initial => Buffered(log, First(HeapOf(log), e.at, e.leftmost))
    case LeftChild => Buffered(log, First(HeapOf(log), e.right, false))
    case Self => if s.inRecord || e.sofar > |e.buf| then 0 else |e.buf| - e.sofar
    case _ => if e.saved.inRecord || e.sofar > |e.buf| then 0 else |e.buf| - e.sofar
  }

  /** Below the top, the position of the chunk reader does not matter. */
  lemma {:induction false} PendingBelow(log: Log, stack: seq<Entry>, s: Position, t: Position)
    requires forall i :: 0 <= i < |stack| ==> EntryOk(log, stack[i])
    ensures Pending(log, stack, s) == Pending(log, stack, t)
  {
    if stack != [] {
      PendingBelow(log, stack[..|stack| - 1], s, t);
    }
  }

  lemma PendingPush(log: Log, base: seq<Entry>, e: Entry, s: Position)
    ensures Pending(log, base + [e], s) == Owed(log, e, s).Then(Pending(log, base, s))
    ensures TurnsLeft(log, base + [e]) == EntryTurns(log, e) + TurnsLeft(log, base)
  {
    assert (base + [e])[..|base|] == base;
  }

  /** After a delivery, the record is the piece delivered and what is left of it. */
  lemma WhatIsLeft(log: Log, r: Record, d: seq<Byte>, s: Position)
    requires r.Whole? && Sound(log, s) && Delivered(log, r, d, s, false)
    ensures Settled(log, s) && r.data == d + Undelivered(log, s)
    ensures s.inRecord <==> Undelivered(log, s) != []
    ensures s.inRecord ==> Ahead(log, s, false).Whole? && Undelivered(log, s) == Ahead(log, s, false).data
  {
    if s.inRecord {
      AheadNonEmpty(log, s);
    }
  }

  lemma AheadNonEmpty(log: Log, s: Position)
    requires Sound(log, s) && Ahead(log, s, false).Whole?
    ensures Ahead(log, s, false).data != []
  {
  }

  /** Where the current record ends, or the current position when between records. */
  ghost function RecordEnd(log: Log, s: Position): Pos {
    if Sound(log, s) && s.inRecord && Ahead(log, s.(skipCurrent := false), false).Whole?
    then Ahead(log, s.(skipCurrent := false), false).end
    else Where(s)
  }

  /** After a delivery, the end of the record is still the end of the record. */
  lemma EndStays(log: Log, r: Record, d: seq<Byte>, s: Position, partial: bool)
    requires r.Whole? && Sound(log, s) && Delivered(log, r, d, s, partial)
    ensures RecordEnd(log, s) == r.end
    ensures s.inRecord ==> Ahead(log, s, false).Whole?
    ensures RecordEnd(log, s.(skipCurrent := true)) == if s.inRecord then r.end else Where(s)
    ensures Delivered(log, r, d, s, false)
  {
  }

  lemma SettledEnd(log: Log, s: Position)
    requires Settled(log, s) && s.inRecord
    ensures Ahead(log, s, false).Whole? && RecordEnd(log, s) == Ahead(log, s, false).end
    ensures Undelivered(log, s) == Ahead(log, s, false).data
  {
    assert s.(skipCurrent := false) == s;
  }

  /** Reads on inside a complete record. */
  method ReadOn(rd: ChunkReader, room: nat) returns (more: seq<Byte>)
    requires rd.Valid() && !rd.skippingPartial && Settled(rd.log, rd.s) && rd.s.inRecord && room > 0
    modifies rd
    ensures rd.Valid() && !rd.skippingPartial && Settled(rd.log, rd.s)
    ensures more != [] && |more| <= room
    ensures old(Undelivered(rd.log, rd.s)) == more + Undelivered(rd.log, rd.s)
    ensures RecordEnd(rd.log, rd.s) == old(RecordEnd(rd.log, rd.s))
    ensures Moved(rd.log, old(rd.s), rd.s)
  {
    hide Locate, RestOf, NextRecord, Moved, Delivered, Undelivered, RecordEnd, Ahead, FilesBounded;
    ghost var s0 := rd.s;
    SettledEnd(rd.log, s0);
    ghost var ahead := Ahead(rd.log, s0, false);
    var n;
    n, more := rd.ReadData(room, false);
    WhatIsLeft(rd.log, ahead, more, rd.s);
    EndStays(rd.log, ahead, more, rd.s, false);
    DeliveredSome(rd.log, ahead, more, rd.s);
  }

  lemma DeliveredSome(log: Log, r: Record, d: seq<Byte>, s: Position)
    requires Sound(log, s) && Delivered(log, r, d, s, false) && r.Whole?
    ensures d != []
  {
  }

  lemma NonePending(log: Log, s: Position)
    ensures Pending(log, [], s) == Flow([], Done)
  {
  }

  /** The entry for an address that was just pushed. */
  function NewEntry(a: Addr, leftmost: bool): Entry {
    Entry(Position(0, 0, 0, 0, 0, FILLER, false, false), a, NIL, [], 0, Initial, leftmost)
  }

  /** The entry after its header has been parsed out of `buf`. */
  function Parsed(e: Entry, buf: seq<Byte>, h: Header): Entry
    requires h.Header?
  {
    e.(buf := buf, right := h.right, sofar := h.len)
  }

  /** The stack after a node header: descend to the prior trees or the left child, or go on to
      the node's own data. */
  function Descended(base: seq<Entry>, e: Entry, left: Addr, s: Position): seq<Entry> {
    if left != NIL then
      base + [e.(state := LeftChild, saved := s)] + [NewEntry(left, e.leftmost)]
    else if e.leftmost && e.right != NIL then
      base + [e.(state := PriorTrees, saved := s)] + [NewEntry(e.right, true)]
    else base + [e.(state := Self)]
  }

  lemma RestOfCopy(log: Log, e: Entry, st: OobState, saved: Position, s: Position)
    ensures Rest(log, e.(state := st, saved := saved), s) == Rest(log, e.(state := st), s) == Rest(log, e, s)
  {
  }

  lemma StackPush(log: Log, base: seq<Entry>, e: Entry, top: Entry, s: Position)
    requires forall i :: 0 <= i < |base| ==> EntryOk(log, base[i])
    requires EntryOk(log, e) && (EntryOk(log, top) || SelfOk(log, top, s))
    ensures StackOk(log, base + [top], s) && StackOk(log, base + [e] + [top], s)
  {
    hide EntryOk, SelfOk;
  }

  /** Descending keeps what is pending, and uses up a turn. */
  lemma DescendedKeeps(log: Log, base: seq<Entry>, e0: Entry, e: Entry, left: Addr, s0: Position, s: Position)
    requires forall i :: 0 <= i < |base| ==> EntryOk(log, base[i])
    requires EntryOk(log, e0) && e0.state == Initial && e.at == e0.at && e.leftmost == e0.leftmost
    requires var h := HeapOf(log); e.at in h && h[e.at] == Node(left, e.right, Rest(log, e, s)) && Rest(log, e, s) != []
    requires e.sofar <= |e.buf| <= e.sofar + MAX_EXCESS && Settled(log, s)
    requires Buffered(log, e.at) == if s.inRecord then 0 else |e.buf| - e.sofar
    ensures var stack := Descended(base, e, left, s);
            && StackOk(log, stack, s) && stack != []
            && MustTake(log, stack[|stack| - 1], s) == MustTake(log, e0, s0)
            && Pending(log, stack, s) == Pending(log, base + [e0], s0)
            && TurnsLeft(log, stack) < TurnsLeft(log, base + [e0])
  {
    hide HeapOf, Contents, Finite, Turns, Pending, TurnsLeft, Settled, Rest, StackOk, Buffered, First;
    var h := HeapOf(log);
    var below := Pending(log, base, s);
    var self := Flow(h[e.at].data, Done);
    PendingBelow(log, base, s0, s);
    PendingPush(log, base, e0, s0);
    Visit(h, e.at, e.leftmost);
    if left != NIL {
      var e1 := e.(state := LeftChild, saved := s);
      var top := NewEntry(left, e.leftmost);
      var l, r := Contents(h, left, e.leftmost), Contents(h, e.right, false);
      RestOfCopy(log, e, LeftChild, s, s);
      StackPush(log, base, e1, top, s);
      PendingPush(log, base, e1, s);
      PendingPush(log, base + [e1], top, s);
      ThenAssociates(l, r, self);
      ThenAssociates(l, r.Then(self), below);
    } else if e.leftmost && e.right != NIL {
      var e1 := e.(state := PriorTrees, saved := s);
      var top := NewEntry(e.right, true);
      RestOfCopy(log, e, PriorTrees, s, s);
      StackPush(log, base, e1, top, s);
      PendingPush(log, base, e1, s);
      PendingPush(log, base + [e1], top, s);
      ThenAssociates(Contents(h, e.right, true), self, below);
    } else {
      RestOfCopy(log, e, Self, s, s);
      StackPush(log, base, e0, e.(state := Self), s);
      PendingPush(log, base, e.(state := Self), s);
    }
  }

  /** A header read with the full buffer tells everything about the record at `a`. */
  lemma HeaderRead(log: Log, a: Addr, data: seq<Byte>, s: Position)
    requires RecordAt(log, a).Whole? && a in HeapOf(log) && Sound(log, s)
    requires Delivered(log, RecordAt(log, a), data, s, false)
    requires |data| <= HEADER_BUFFER && (|data| == HEADER_BUFFER || !s.inRecord)
    ensures Settled(log, s)
    ensures var h := HeapOf(log); var p := ParseHeader(data);
            if RecordType(s.kind) != TYPE_OOB_DATA || p.ShortHeader? then h[a] == Faulty
            else
              && h[a] == Node(p.left, p.right, data[p.len..] + Undelivered(log, s)) && h[a].data != []
              && Buffered(log, a) == if s.inRecord then 0 else |data| - p.len
  {
    hide Locate, RestOf, NextRecord, Ahead, Undelivered, Settled, Sound;
    var r := RecordAt(log, a);
    WhatIsLeft(log, r, data, s);
    HeaderFits(r.data);
    assert Take(r.data, HEADER_BUFFER) == data;
    var p := ParseHeader(data);
    if p.Header? {
      assert r.data[p.len..] == data[p.len..] + Undelivered(log, s);
    }
  }

  lemma FaultyTop(log: Log, base: seq<Entry>, e: Entry, s: Position)
    requires e.state == Initial && EntryOk(log, e) && HeapOf(log)[e.at] == Faulty
    ensures Pending(log, base + [e], s) == Flow([], Fault)
  {
    Visit(HeapOf(log), e.at, e.leftmost);
    PendingPush(log, base, e, s);
  }

  /** Coming back from the last child: the node's own data is next. */
  lemma BackToSelf(log: Log, base: seq<Entry>, e: Entry, s0: Position)
    requires forall i :: 0 <= i < |base| ==> EntryOk(log, base[i])
    requires EntryOk(log, e) && (e.state == PriorTrees || e.state == RightChild)
    ensures var stack := base + [e.(state := Self)];
            && StackOk(log, stack, e.saved)
            && Pending(log, stack, e.saved) == Pending(log, base + [e], s0)
            && TurnsLeft(log, stack) < TurnsLeft(log, base + [e])
            && MustTake(log, e.(state := Self), e.saved) == MustTake(log, e, s0)
  {
    hide HeapOf, Pending, TurnsLeft, Settled, Rest, StackOk;
    PendingBelow(log, base, s0, e.saved);
    PendingPush(log, base, e, s0);
    PendingPush(log, base, e.(state := Self), e.saved);
    RestOfCopy(log, e, Self, e.saved, e.saved);
    StackPush(log, base, e, e.(state := Self), e.saved);
  }

  /** From the left child to the right child. */
  lemma OnToRight(log: Log, base: seq<Entry>, e: Entry, s: Position)
    requires forall i :: 0 <= i < |base| ==> EntryOk(log, base[i])
    requires EntryOk(log, e) && e.state == LeftChild
    ensures var stack := base + [e.(state := RightChild)] + [NewEntry(e.right, false)];
            && StackOk(log, stack, s)
            && Pending(log, stack, s) == Pending(log, base + [e], s)
            && TurnsLeft(log, stack) < TurnsLeft(log, base + [e])
            && MustTake(log, NewEntry(e.right, false), s) == MustTake(log, e, s)
  {
    hide HeapOf, Contents, Finite, Turns, Pending, TurnsLeft, Settled, Rest, StackOk, Buffered, First;
    var e1, top := e.(state := RightChild), NewEntry(e.right, false);
    RestOfCopy(log, e, RightChild, e.saved, e.saved);
    PendingPush(log, base, e, s);
    PendingPush(log, base, e1, s);
    PendingPush(log, base + [e1], top, s);
    StackPush(log, base, e1, top, s);
    var h := HeapOf(log);
    ThenAssociates(Contents(h, e.right, false), Flow(Data(h, e.at), Done), Pending(log, base, s));
  }

  /** Delivering `d` of the data of the top entry, which stays on the stack. */
  lemma TookSome(log: Log, base: seq<Entry>, e: Entry, e1: Entry, d: seq<Byte>, s0: Position, s: Position)
    requires forall i :: 0 <= i < |base| ==> EntryOk(log, base[i])
    requires SelfOk(log, e, s0) && SelfOk(log, e1, s) && Rest(log, e, s0) == d + Rest(log, e1, s)
    ensures StackOk(log, base + [e1], s)
    ensures Pending(log, base + [e], s0) == Flow(d, Done).Then(Pending(log, base + [e1], s))
  {
    hide HeapOf, Pending, TurnsLeft, Settled, Rest;
    PendingBelow(log, base, s0, s);
    PendingPush(log, base, e, s0);
    PendingPush(log, base, e1, s);
    ThenAssociates(Flow(d, Done), Flow(Rest(log, e1, s), Done), Pending(log, base, s));
  }

  /** Delivering the last data of the top entry, which is popped. */
  lemma TookLast(log: Log, base: seq<Entry>, e: Entry, s0: Position, s: Position)
    requires forall i :: 0 <= i < |base| ==> EntryOk(log, base[i])
    requires SelfOk(log, e, s0)
    ensures StackOk(log, base, s)
    ensures Pending(log, base + [e], s0) == Flow(Rest(log, e, s0), Done).Then(Pending(log, base, s))
  {
    hide HeapOf, Pending, TurnsLeft, Settled, Rest;
    PendingBelow(log, base, s0, s);
    PendingPush(log, base, e, s0);
  }

  class OobReader {
    var stack: seq<Entry>

    constructor ()
      ensures stack == []
    {
      stack := [];
    }

    ghost predicate Valid(rd: ChunkReader)
      reads this, rd
    {
      rd.Valid() && !rd.skippingPartial && StackOk(rd.log, stack, rd.s)
    }

    /** All the bytes that this traversal will still produce. */
    ghost function StillToCome(rd: ChunkReader): Flow
      reads this, rd
    {
      Pending(rd.log, stack, rd.s)
    }

    ghost function NextMustTake(rd: ChunkReader): nat
      reads this, rd
    {
      if stack == [] then 0 else MustTake(rd.log, stack[|stack| - 1], rd.s)
    }

    method PushState(a: Addr, leftmost: bool)
      modifies this
      ensures stack == old(stack) + [NewEntry(a, leftmost)]
    {
      stack := stack + [NewEntry(a, leftmost)];
    }

    /** Starts a traversal at the root of the last tree; it will produce the post-order contents. */
    method StartTraversal(a: Addr, rd: ChunkReader)
      requires rd.Valid() && !rd.skippingPartial && Finite(HeapOf(rd.log), a, true)
      modifies this
      ensures stack == [NewEntry(a, true)] && Valid(rd)
      ensures StillToCome(rd) == Contents(HeapOf(rd.log), a, true)
    {
      stack := [];
      PushState(a, true);
      PendingPush(rd.log, [], NewEntry(a, true), rd.s);
      assert [] + [NewEntry(a, true)] == stack;
    }

    /** Reads the header of the node on top for the first time, and descends. */
    method VisitNode(rd: ChunkReader) returns (ok: bool)
      requires Valid(rd) && stack != [] && stack[|stack| - 1].state == Initial
      modifies this, rd
      ensures ok ==>
                && Valid(rd) && stack != [] && StillToCome(rd) == old(StillToCome(rd))
                && TurnsLeft(rd.log, stack) < old(TurnsLeft(rd.log, stack)) && NextMustTake(rd) == old(NextMustTake(rd))
      ensures !ok ==> old(StillToCome(rd)) == Flow([], Fault)
    {
      hide Locate, RestOf, NextRecord, Ahead, HeapOf, Contents, Finite, Pending, TurnsLeft, Undelivered, Settled, StackOk;
      hide Buffered, MustTake;
      ghost var s0 := rd.s;
      var base := stack[..|stack| - 1];
      var e := stack[|stack| - 1];
      ghost var e0 := e;
      assert stack == base + [e];
      TopOk(rd.log, base, e, s0);
      rd.Seek(e.at.file, e.at.offset);
      InHeap(rd.log, e.at, e.leftmost);
      var res, data := rd.ReadData(HEADER_BUFFER, true);
      if res > 0 {
        HeaderRead(rd.log, e.at, data, rd.s);
      }
      if res <= 0 || rd.CurType() != TYPE_OOB_DATA || ParseHeader(data).ShortHeader? {
        FaultyTop(rd.log, base, e0, s0);
        return false;
      }
      var h := ParseHeader(data);
      e := Parsed(e, data, h);
      DescendedKeeps(rd.log, base, e0, e, h.left, s0, rd.s);
      if h.left == NIL {
        if e.leftmost && e.right != NIL {
          stack := base + [e.(state := PriorTrees, saved := rd.s)];
          PushState(e.right, true);
        } else {
          stack := base + [e.(state := Self)];
        }
      } else {
        stack := base + [e.(state := LeftChild, saved := rd.s)];
        PushState(h.left, e.leftmost);
      }
      return true;
    }

    /** One state change that produces no data. */
    method Turn(rd: ChunkReader) returns (ok: bool)
      requires Valid(rd) && stack != [] && stack[|stack| - 1].state != Self
      modifies this, rd
      ensures ok ==>
                && Valid(rd) && stack != [] && StillToCome(rd) == old(StillToCome(rd))
                && TurnsLeft(rd.log, stack) < old(TurnsLeft(rd.log, stack)) && NextMustTake(rd) == old(NextMustTake(rd))
      ensures !ok ==> old(StillToCome(rd)) == Flow([], Fault)
    {
      hide Locate, RestOf, NextRecord, Ahead, HeapOf, Contents, Finite, Pending, TurnsLeft, Undelivered, Settled, StackOk;
      hide Buffered, MustTake;
      var base := stack[..|stack| - 1];
      var e := stack[|stack| - 1];
      assert stack == base + [e];
      TopOk(rd.log, base, e, rd.s);
      ok := true;
      if e.state == Initial {
        ok := VisitNode(rd);
      } else if e.state == LeftChild {
        OnToRight(rd.log, base, e, rd.s);
        stack := base + [e.(state := RightChild)];
        PushState(e.right, false);
      } else {
        BackToSelf(rd.log, base, e, rd.s);
        SavedSound(rd.log, e);
        rd.RestorePos(e.saved);
        stack := base + [e.(state := Self)];
      }
    }

    /** Delivers data of the entry `e`: first from its header buffer, then from its record. */
    method TakeSelf(rd: ChunkReader, e: Entry, len: nat) returns (e1: Entry, data: seq<Byte>)
      requires rd.Valid() && !rd.skippingPartial && SelfOk(rd.log, e, rd.s)
      modifies rd
      ensures rd.Valid() && !rd.skippingPartial && Settled(rd.log, rd.s)
      ensures e1 == e.(sofar := e1.sofar) && e.sofar <= e1.sofar <= |e1.buf|
      ensures old(Rest(rd.log, e, rd.s)) == data + Rest(rd.log, e1, rd.s)
      ensures |data| <= len && (len > 0 ==> data != [])
      ensures rd.s.inRecord ==> old(rd.s.inRecord)
      ensures !rd.s.inRecord ==> (e1.sofar < |e1.buf| <==> !old(rd.s.inRecord) && len < |e.buf| - e.sofar)
    {
      hide Locate, Ahead, Moved, Undelivered, Settled, Sound, FilesBounded, Rest;
      ghost var s0 := rd.s;
      SettledLeft(rd.log, s0);
      var size := if |e.buf| - e.sofar < len then |e.buf| - e.sofar else len;
      data := e.buf[e.sofar..e.sofar + size];
      e1 := e.(sofar := e.sofar + size);
      RestFromBuffer(rd.log, e, size, s0);
      if size < len && !rd.EndOfRecord() {
        var more := ReadOn(rd, len - size);
        RestFromRecord(rd.log, e, e1, data, more, s0, rd.s);
        data := data + more;
      }
    }

    /** Delivers data of the top entry, and pops it when the chunk reader is at the end of its
        record. What the header buffer still holds then is dropped. */
    method EmitSelf(rd: ChunkReader, len: nat) returns (data: seq<Byte>, ghost dropped: seq<Byte>)
      requires Valid(rd) && stack != [] && stack[|stack| - 1].state == Self
      modifies this, rd
      ensures Valid(rd) && |data| <= len
      ensures old(StillToCome(rd)) == Flow(data + dropped, Done).Then(StillToCome(rd))
      ensures len > 0 ==> data != []
      ensures dropped != [] <==> len < old(NextMustTake(rd))
    {
      hide Locate, RestOf, NextRecord, Ahead, HeapOf, Contents, Finite, Pending, TurnsLeft, StackOk, Sound, Rest, Settled;
      ghost var s0 := rd.s;
      ghost var base := stack[..|stack| - 1];
      var e := stack[|stack| - 1];
      assert stack == base + [e];
      TopOk(rd.log, base, e, rd.s);
      var e1;
      e1, data := TakeSelf(rd, e, len);
      stack := stack[|stack| - 1 := e1];
      RestNow(rd.log, e1, rd.s);
      dropped := [];
      if rd.EndOfRecord() {
        dropped := e1.buf[e1.sofar..];
        stack := stack[..|stack| - 1];
        assert stack == base;
        TookLast(rd.log, base, e, s0, rd.s);
      } else {
        assert stack == base + [e1];
        TookSome(rd.log, base, e, e1, data, s0, rd.s);
        assert data + dropped == data;
      }
    }

    /** Delivers the next bytes of the traversal, at most `len` of them. */
    method ReadData(rd: ChunkReader, len: nat) returns (res: int, data: seq<Byte>, ghost dropped: seq<Byte>)
      requires Valid(rd) && stack != []
      modifies this, rd
      ensures res < 0 ==> old(StillToCome(rd)) == Flow([], Fault) && dropped == []
      ensures res >= 0 ==>
                && Valid(rd) && res == |data| <= len && (len > 0 ==> res > 0)
                && old(StillToCome(rd)) == Flow(data + dropped, Done).Then(StillToCome(rd))
                && (dropped != [] <==> len < old(NextMustTake(rd)))
    {
      hide Pending, TurnsLeft, StackOk, MustTake;
      while stack[|stack| - 1].state != Self
        invariant Valid(rd) && stack != []
        invariant StillToCome(rd) == old(StillToCome(rd)) && NextMustTake(rd) == old(NextMustTake(rd))
        decreases TurnsLeft(rd.log, stack)
      {
        var ok := Turn(rd);
        if !ok {
          return -1, [], [];
        }
      }
      data, dropped := EmitSelf(rd, len);
      return |data|, data, dropped;
    }
  }

  /** Taking bytes out of the header buffer. */
  lemma RestFromBuffer(log: Log, e: Entry, size: nat, s: Position)
    requires e.sofar + size <= |e.buf|
    ensures Rest(log, e, s) == e.buf[e.sofar..e.sofar + size] + Rest(log, e.(sofar := e.sofar + size), s)
    ensures Rest(log, e, s) != [] && Undelivered(log, s) == [] ==> |e.buf| > e.sofar
  {
    hide Undelivered;
    assert e.buf[e.sofar..] == e.buf[e.sofar..e.sofar + size] + e.buf[e.sofar + size..];
  }

  /** Taking bytes out of the record after the header buffer is used up. */
  lemma RestFromRecord(log: Log, e: Entry, e1: Entry, data: seq<Byte>, more: seq<Byte>, s0: Position, s: Position)
    requires e1.sofar == |e1.buf| && Rest(log, e, s0) == data + Rest(log, e1, s0)
    requires Undelivered(log, s0) == more + Undelivered(log, s)
    ensures Rest(log, e, s0) == data + more + Rest(log, e1, s)
  {
    hide Undelivered;
    assert e1.buf[e1.sofar..] == [];
  }

  /** A caller that always asks for at least `MAX_EXCESS` bytes never loses data. */
  lemma ExcessBound(log: Log, stack: seq<Entry>, s: Position)
    requires stack != [] && StackOk(log, stack, s)
    ensures MustTake(log, stack[|stack| - 1], s) <= MAX_EXCESS
  {
    hide Locate, RestOf, NextRecord, Ahead, Sound;
  }

  lemma SavedSound(log: Log, e: Entry)
    requires EntryOk(log, e) && e.state != Initial
    ensures Sound(log, e.saved)
  {
  }

  lemma RestNow(log: Log, e: Entry, s: Position)
    requires Settled(log, s) && e.sofar <= |e.buf|
    ensures !s.inRecord ==> Rest(log, e, s) == e.buf[e.sofar..]
    ensures s.inRecord ==> Rest(log, e, s) != []
  {
    SettledLeft(log, s);
  }

  lemma SettledLeft(log: Log, s: Position)
    requires Settled(log, s)
    ensures s.inRecord <==> Undelivered(log, s) != []
    ensures s.inRecord ==> Ahead(log, s, false).Whole? && Undelivered(log, s) == Ahead(log, s, false).data
  {
    if s.inRecord {
      AheadNonEmpty(log, s);
    }
  }

  lemma TopOk(log: Log, base: seq<Entry>, top: Entry, s: Position)
    requires StackOk(log, base + [top], s)
    ensures if top.state == Self then SelfOk(log, top, s) else EntryOk(log, top)
    ensures forall i :: 0 <= i < |base| ==> EntryOk(log, base[i])
  {
    var stack := base + [top];
    forall i | 0 <= i < |base|
      ensures EntryOk(log, base[i])
    {
      assert stack[i] == base[i];
    }
  }

  /** A finite unfolding starts at a record that is not torn. */
  lemma InHeap(log: Log, a: Addr, leftmost: bool)
    requires Finite(HeapOf(log), a, leftmost)
    ensures a in HeapOf(log) && RecordAt(log, a) != Broken
    ensures RecordAt(log, a).Nothing? ==> HeapOf(log)[a] == Faulty
  {
    Visit(HeapOf(log), a, leftmost);
  }
}
