/** The event-group reader: finds the commit records of one binlog file and delivers, for each,
    its own data, then its out-of-band data, then its secondary out-of-band data.
  */
module EventReading {
  import opened BinlogFormat
  import opened ChunkReading
  import opened OobForest
  import opened OobReading
  import C = CompressedInt

  // ----- the header of a commit record -----

  datatype CommitHeader =
    | ShortCommit
    | CommitHeader(count: nat, last: Addr, count2: nat, last2: Addr, len: nat)

  /** A first-node address, which is skipped, and a last-node address. */
  datatype Links = ShortLinks | Links(last: Addr, next: nat)

  function ParseLinks(b: seq<Byte>, p: nat): (l: Links)
    requires p <= |b|
    ensures l.Links? ==> p < l.next <= |b| && l.next <= p + 4 * C.MAX64
  {
    var firstFile := C.Read(b, p);
    if firstFile.Short? then ShortLinks else
    var firstOffset := C.Read(b, firstFile.next);
    if firstOffset.Short? then ShortLinks else
    var lastFile := C.Read(b, firstOffset.next);
    if lastFile.Short? then ShortLinks else
    var lastOffset := C.Read(b, lastFile.next);
    if lastOffset.Short? then ShortLinks else
    Links(Addr(lastFile.value, lastOffset.value), lastOffset.next)
  }

  function ParseCommit(b: seq<Byte>): (h: CommitHeader)
    ensures h.CommitHeader? ==> 0 < h.len <= |b| && (h.count == 0 ==> h.count2 == 0)
  {
    var count := C.Read(b, 0);
    if count.Short? then ShortCommit
    else if count.value == 0 then CommitHeader(0, NIL, 0, NIL, count.next)
    else
      var links := ParseLinks(b, count.next);
      if links.ShortLinks? then ShortCommit else
      var count2 := C.Read(b, links.next);
      if count2.Short? then ShortCommit
      else if count2.value == 0 then CommitHeader(count.value, links.last, 0, NIL, count2.next)
      else
        var links2 := ParseLinks(b, count2.next);
        if links2.ShortLinks? then ShortCommit
        else CommitHeader(count.value, links.last, count2.value, links2.last, links2.next)
  }

  lemma LinksInPrefix(b: seq<Byte>, k: nat, p: nat)
    requires p <= k <= |b|
    ensures ParseLinks(b[..k], p)
            == if ParseLinks(b, p).Links? && ParseLinks(b, p).next <= k then ParseLinks(b, p) else ShortLinks
  {
    C.ReadInPrefix(b, k, p);
    var firstFile := C.Read(b, p);
    if firstFile.Int? && firstFile.next <= k {
      C.ReadInPrefix(b, k, firstFile.next);
      var firstOffset := C.Read(b, firstFile.next);
      if firstOffset.Int? && firstOffset.next <= k {
        C.ReadInPrefix(b, k, firstOffset.next);
        var lastFile := C.Read(b, firstOffset.next);
        if lastFile.Int? && lastFile.next <= k {
          C.ReadInPrefix(b, k, lastFile.next);
        }
      }
    }
  }

  /** The reader parses the header out of the header buffer only. It accepts exactly the commit
      records whose header fits there; the writer allows headers of up to ten integers. */
  lemma HeaderFitsExactly(b: seq<Byte>)
    ensures ParseCommit(Take(b, HEADER_BUFFER))
            == if ParseCommit(b).CommitHeader? && ParseCommit(b).len <= HEADER_BUFFER then ParseCommit(b) else ShortCommit
  {
    if |b| > HEADER_BUFFER {
      CommitInPrefix(b, HEADER_BUFFER);
    }
  }

  lemma CommitInPrefix(b: seq<Byte>, k: nat)
    requires 0 < k <= |b|
    ensures ParseCommit(b[..k])
            == if ParseCommit(b).CommitHeader? && ParseCommit(b).len <= k then ParseCommit(b) else ShortCommit
  {
    hide ParseLinks;
    C.ReadInPrefix(b, k, 0);
    var count := C.Read(b, 0);
    if count.Int? && count.next <= k && count.value > 0 {
      LinksInPrefix(b, k, count.next);
      var links := ParseLinks(b, count.next);
      if links.Links? && links.next <= k {
        C.ReadInPrefix(b, k, links.next);
        var count2 := C.Read(b, links.next);
        if count2.Int? && count2.next <= k && count2.value > 0 {
          LinksInPrefix(b, k, count2.next);
        }
      }
    }
  }

  // ----- what a file means -----

  const NOTHING := Flow([], Done)

  /** The out-of-band data that a count and an address stand for. */
  ghost function Oob(log: Log, count: nat, last: Addr): Flow {
    if count > 0 then Contents(HeapOf(log), last, true) else NOTHING
  }

  /** What a commit record stands for: its data, the primary, and the secondary out-of-band data. */
  ghost function Group(log: Log, data: seq<Byte>): Flow {
    var h := ParseCommit(data);
    if h.ShortCommit? || h.len > HEADER_BUFFER then Flow([], Fault)
    else Flow(data[h.len..], Done).Then(Oob(log, h.count, h.last).Then(Oob(log, h.count2, h.last2)))
  }

  /** The event groups of file `start` from `p` on. */
  ghost function Groups(log: Log, start: nat, p: Pos, partial: bool): Flow
    decreases FilesFrom(log, p.file), PagesFrom(log, p), BytesFrom(p)
  {
    if p.file > start || (p.file == start && FileExhausted(log, p)) then NOTHING
    else
      var r := NextRecord(log, p, partial);
      if r.Nothing? then NOTHING
      else if r.Broken? then Flow([], Torn)
      else
        BeforeShrinks(log, p, r.end);
        if r.rtype == TYPE_COMMIT then Group(log, r.data).Then(Groups(log, start, r.end, false))
        else Groups(log, start, r.end, partial)
  }

  /** The event groups of file `start` when the record `r` is next. */
  ghost function GroupsBy(log: Log, start: nat, r: Record, partial: bool): Flow {
    if r.Nothing? then NOTHING
    else if r.Broken? then Flow([], Torn)
    else if r.rtype == TYPE_COMMIT then Group(log, r.data).Then(Groups(log, start, r.end, false))
    else Groups(log, start, r.end, partial)
  }

  // ----- how much the next call has to take at once -----

  /** What the header buffer holds of the first node of a traversal, when that is all of its record. */
  ghost function FirstExcess(log: Log, last: Addr): nat {
    Buffered(log, First(HeapOf(log), last, true))
  }

  /** Without data of its own, a commit record goes straight on to its out-of-band data, or to what comes `next`. */
  ghost function ExcessAfter(log: Log, data: seq<Byte>, count: nat, last: Addr, next: nat): nat {
    if data != [] then 0 else if count > 0 then FirstExcess(log, last) else next
  }

  ghost function GroupExcess(log: Log, data: seq<Byte>, next: nat): nat {
    var h := ParseCommit(data);
    if h.ShortCommit? || h.len > HEADER_BUFFER then 0 else ExcessAfter(log, data[h.len..], h.count, h.last, next)
  }

  ghost function Excess(log: Log, start: nat, p: Pos, partial: bool): nat
    decreases FilesFrom(log, p.file), PagesFrom(log, p), BytesFrom(p)
  {
    if p.file > start || (p.file == start && FileExhausted(log, p)) then 0
    else
      var r := NextRecord(log, p, partial);
      if !r.Whole? then 0
      else
        BeforeShrinks(log, p, r.end);
        if r.rtype == TYPE_COMMIT then GroupExcess(log, r.data, Excess(log, start, r.end, false))
        else Excess(log, start, r.end, partial)
  }

  ghost function ExcessBy(log: Log, start: nat, r: Record, partial: bool): nat {
    if !r.Whole? then 0
    else if r.rtype == TYPE_COMMIT then GroupExcess(log, r.data, Excess(log, start, r.end, false))
    else Excess(log, start, r.end, partial)
  }

  /** The file after `start` begins with a GTID state record, or is not there. */
  ghost predicate StateRecordFirst(log: Log, start: nat) {
    var p := Pos(start + 1, 1, 0);
    forall partial :: var r := NextRecord(log, p, partial); r.Nothing? || (r.Whole? && r.rtype != TYPE_COMMIT)
  }

  // ----- positions between and inside the records of a file -----

  /** Inside a complete record that is not a commit record, or between records. */
  ghost predicate Skippable(log: Log, s: Position) {
    && Sound(log, s)
    && (s.inRecord ==> Ahead(log, s.(skipCurrent := false), false).Whole? && RecordType(s.kind) != TYPE_COMMIT)
  }

  /** In file `start` and not at its end, or in a later file. */
  ghost predicate NotPast(log: Log, start: nat, s: Position) {
    s.file >= start && (s.file == start ==> !FileExhausted(log, Where(s)))
  }

  /** Reading on from a position that is not past the end. */
  lemma StillNotPast(log: Log, start: nat, s0: Position, s: Position)
    requires s0.file >= start && Moved(log, s0, s) && Sound(log, s)
    ensures NotPast(log, start, s)
  {
  }

  lemma EndIsLater(log: Log, s: Position)
    requires Sound(log, s)
    ensures RecordEnd(log, s).file >= s.file
  {
  }

  /** The record that the next read finds continues the meaning of the file. */
  lemma NextOfFile(log: Log, start: nat, s: Position, partial: bool)
    requires Skippable(log, s) && NotPast(log, start, s) && s.file == start && StateRecordFirst(log, start)
    ensures Groups(log, start, RecordEnd(log, s), partial) == GroupsBy(log, start, Ahead(log, s, partial), partial)
    ensures Excess(log, start, RecordEnd(log, s), partial) == ExcessBy(log, start, Ahead(log, s, partial), partial)
  {
    if !s.inRecord {
    } else if s.chunkLen == 0 {
    } else {
      var next := After(log, Where(s), s.chunkLen);
      if IsLast(s.kind) && s.skipCurrent {
        assert RecordEnd(log, s) == next;
        if next.file > start {
          assert next == Pos(start + 1, 1, 0);
        } else {
          assert !FileExhausted(log, next);
        }
      }
    }
  }

  // ----- the reader -----

  /** A commit record was taken over, another record was passed by, the file has no more, or the
      header of a commit record does not fit the buffer. */
  datatype Find = Commit | PassedBy | NoCommit | BadCommit

  datatype ReaderState = NextGroup | CommitRecord | OobData

  class EventReader {
    const rd: ChunkReader
    const oob: OobReader
    var start: nat
    var state: ReaderState
    var count: nat
    var last: Addr
    var count2: nat
    var last2: Addr
    var buf: seq<Byte>
    var sofar: nat
    var saved: Position

    /** All the bytes that this reader will still deliver. */
    ghost function StillToCome(): Flow
      reads this, rd, oob
    {
      match state
      case NextGroup => Groups(rd.log, start, RecordEnd(rd.log, rd.s), rd.skippingPartial)
      case CommitRecord =>
        Flow(CommitRest(rd.log, buf, sofar, rd.s), Done)
          .Then(Oob(rd.log, count, last).Then(Oob(rd.log, count2, last2)))
          .Then(Groups(rd.log, start, RecordEnd(rd.log, rd.s), false))
      case OobData =>
        oob.StillToCome(rd).Then(Oob(rd.log, count2, last2)).Then(Groups(rd.log, start, Where(saved), false))
    }

    /** How many bytes the next call has to take at once, or lose: those of a node that the header buffer holds all of,
        when nothing comes before it. */
    ghost function MustTakeNext(): nat
      reads this, rd, oob
    {
      match state
      case NextGroup => Excess(rd.log, start, RecordEnd(rd.log, rd.s), rd.skippingPartial)
      case CommitRecord =>
        ExcessAfter(rd.log, CommitRest(rd.log, buf, sofar, rd.s), count, last,
                    Excess(rd.log, start, RecordEnd(rd.log, rd.s), false))
      case OobData => oob.NextMustTake(rd)
    }

    ghost predicate Valid()
      reads this, rd, oob
    {
      && rd.Valid() && StateRecordFirst(rd.log, start) && StillToCome().end != Torn
      && match state
         case NextGroup => Skippable(rd.log, rd.s) && AtWork(rd.log, start, rd.s, rd.handle)
         case CommitRecord =>
           && !rd.skippingPartial && Settled(rd.log, rd.s) && NotPast(rd.log, start, rd.s) && sofar <= |buf|
           && (count == 0 ==> count2 == 0)
         case OobData =>
           && oob.Valid(rd) && oob.stack != []
           && Sound(rd.log, saved) && !saved.inRecord && NotPast(rd.log, start, saved)
    }

    /** A reader on file `file` of `log`, starting at the first record at or after the place `p` of the given
        offset; offsets inside the file header mean the start of the page after it. */
    constructor (log: Log, file: nat, startPosition: nat, ghost p: Pos)
      requires FilesBounded(log) && file in log && StateRecordFirst(log, file) && startPosition < 0x1_0000_0000
      requires p.file == file && p.off < PAGE_SIZE &&
        if startPosition < PAGE_SIZE then p.page == 1 && p.off == 0 else PAGE_SIZE * p.page + p.off == startPosition
      requires Groups(log, file, p, true).end != Torn
      ensures Valid() && state == NextGroup && rd.log == log && start == file
      ensures StillToCome() == Groups(log, file, p, true)
      ensures fresh(rd) && fresh(oob)
    {
      var position := if startPosition < PAGE_SIZE then PAGE_SIZE else startPosition;
      var chunks := new ChunkReader(log, file);
      chunks.Seek(file, position);
      chunks.skippingPartial := true;
      rd := chunks;
      oob := new OobReader();
      start := file;
      state := NextGroup;
      count, last, count2, last2 := 0, NIL, 0, NIL;
      buf, sofar := [], 0;
      saved := Position(0, 0, 0, 0, 0, FILLER, false, false);
      new;
      PlaceOf(file, position, p);
    }

    /** Whether the reader has reached the end of its file. */
    method AtFileEnd() returns (b: bool)
      requires Valid() && state == NextGroup
      ensures b ==> StillToCome() == NOTHING && MustTakeNext() == 0
      ensures !b ==> MustTakeNext() == ExcessBy(rd.log, start, Ahead(rd.log, rd.s, rd.skippingPartial), rd.skippingPartial)
      ensures !b ==> rd.s.file == start && NotPast(rd.log, start, rd.s)
      ensures !b ==> StillToCome() == GroupsBy(rd.log, start, Ahead(rd.log, rd.s, rd.skippingPartial), rd.skippingPartial)
    {
      hide Locate, RestOf, NextRecord, Ahead, Groups, Group, Oob, RecordEnd, Skippable, NotPast, GroupsBy, StateRecordFirst;
      hide Excess, ExcessBy;
      if rd.s.file == start {
        EndOfFileTest(rd, start);
      }
      if rd.s.file > start || (rd.s.file == start && rd.IsEndOfFile()) {
        NoMoreGroups(rd.log, start, rd.s, rd.skippingPartial);
        return true;
      }
      NotBehind(rd.log, start, rd.s, rd.handle);
      NextOfFile(rd.log, start, rd.s, rd.skippingPartial);
      return false;
    }

    /** Takes over the commit record whose first bytes are `data`. */
    method AcceptCommit(data: seq<Byte>, ghost r: Record) returns (ok: bool)
      requires rd.Valid() && StateRecordFirst(rd.log, start) && NotPast(rd.log, start, rd.s)
      requires r.Whole? && Delivered(rd.log, r, data, rd.s, rd.skippingPartial)
      requires |data| <= HEADER_BUFFER && (|data| == HEADER_BUFFER || !rd.s.inRecord)
      requires Group(rd.log, r.data).Then(Groups(rd.log, start, r.end, false)).end != Torn
      modifies this, rd`skippingPartial
      ensures start == old(start)
      ensures ok ==> Valid() && state == CommitRecord
      ensures ok ==> StillToCome() == Group(rd.log, r.data).Then(Groups(rd.log, start, r.end, false))
      ensures ok ==> MustTakeNext() == GroupExcess(rd.log, r.data, Excess(rd.log, start, r.end, false))
      ensures !ok ==> Group(rd.log, r.data) == Flow([], Fault)
    {
      hide Locate, RestOf, NextRecord, Ahead, Groups, Group, Oob, RecordEnd, NotPast, StateRecordFirst;
      hide ParseCommit, CommitRest, Settled, FilesBounded, Sound, Delivered, Excess, FirstExcess, GroupExcess;
      CommitFound(rd.log, r, data, rd.s, rd.skippingPartial);
      EndStays(rd.log, r, data, rd.s, rd.skippingPartial);
      rd.skippingPartial := false;
      var h := ParseCommit(data);
      if h.ShortCommit? {
        return false;
      }
      buf := data;
      count, last, count2, last2 := h.count, h.last, h.count2, h.last2;
      sofar := h.len;
      state := CommitRecord;
      return true;
    }

    /** Reads the start of the next record, and accepts it or passes over it. */
    method Examine() returns (found: Find)
      requires Valid() && state == NextGroup && rd.s.file == start && NotPast(rd.log, start, rd.s)
      requires StillToCome() == GroupsBy(rd.log, start, Ahead(rd.log, rd.s, rd.skippingPartial), rd.skippingPartial)
      requires MustTakeNext() == ExcessBy(rd.log, start, Ahead(rd.log, rd.s, rd.skippingPartial), rd.skippingPartial)
      modifies this, rd
      ensures start == old(start)
      ensures found == BadCommit ==> old(StillToCome()).end == Fault && old(StillToCome()).bytes == []
      ensures found != BadCommit ==> Valid() && StillToCome() == old(StillToCome())
      ensures found == NoCommit ==> state == NextGroup && StillToCome() == NOTHING && old(MustTakeNext()) == 0
      ensures found == PassedBy || found == Commit ==> MustTakeNext() == old(MustTakeNext())
      ensures found == PassedBy || found == Commit ==> Moved(rd.log, old(rd.s), rd.s)
      ensures found == PassedBy ==> state == NextGroup
      ensures found == Commit ==> state == CommitRecord
    {
      hide Locate, RestOf, NextRecord, Ahead, Groups, Group, Oob, RecordEnd, Skippable, NotPast, AtWork, FilesBounded;
      hide StateRecordFirst, Settled, CommitRest, Delivered, Moved, Excess, FirstExcess, GroupExcess;
      ghost var s0 := rd.s;
      ghost var ahead := Ahead(rd.log, s0, rd.skippingPartial);
      var n, data := rd.ReadData(HEADER_BUFFER, true);
      if n <= 0 {
        LogEnded(rd.log, start, s0, rd.s, rd.skippingPartial);
        WorksOn(rd.log, start, rd.s, rd.handle);
        return NoCommit;
      }
      DeliveredType(rd.log, ahead, data, rd.s, rd.skippingPartial);
      if rd.CurType() == TYPE_COMMIT {
        StillNotPast(rd.log, start, s0, rd.s);
        var ok := AcceptCommit(data, ahead);
        return if ok then Commit else BadCommit;
      }
      PassedOver(rd.log, start, ahead, data, s0, rd.s, rd.skippingPartial);
      rd.SkipCurrent();
      WorksOn(rd.log, start, rd.s, rd.handle);
      return PassedBy;
    }

    /** Reads up to the next commit record and parses its header. */
    method FindCommit() returns (found: Find)
      requires Valid() && state == NextGroup
      modifies this, rd
      ensures start == old(start) && found != PassedBy
      ensures found == BadCommit ==> old(StillToCome()) == Flow([], Fault)
      ensures found != BadCommit ==> Valid() && StillToCome() == old(StillToCome())
      ensures found == NoCommit ==> state == NextGroup && StillToCome() == NOTHING && old(MustTakeNext()) == 0
      ensures found == Commit ==> state == CommitRecord && Moved(rd.log, old(rd.s), rd.s)
      ensures found == Commit ==> MustTakeNext() == old(MustTakeNext())
    {
      hide EventReader.MustTakeNext, ExcessBy;
      hide Ahead, Groups, GroupsBy, Oob, RecordEnd, Skippable, NotPast, AtWork, FilesBounded;
      hide FilesFrom, PagesFrom, BytesFrom, ChunkFrom, StateRecordFirst, Settled, CommitRest, Moved, Sound;
      while true
        invariant Valid() && state == NextGroup && StillToCome() == old(StillToCome()) && start == old(start)
        invariant MustTakeNext() == old(MustTakeNext())
        invariant rd.s == old(rd.s) || Moved(rd.log, old(rd.s), rd.s)
        decreases FilesFrom(rd.log, rd.s.file), PagesFrom(rd.log, Where(rd.s)), BytesFrom(Where(rd.s)), ChunkFrom(rd.s)
      {
        ghost var s0 := rd.s;
        var done := AtFileEnd();
        if done {
          return NoCommit;
        }
        found := Examine();
        if found == NoCommit || found == BadCommit {
          return;
        }
        if s0 != old(rd.s) {
          MovedTwice(rd.log, old(rd.s), s0, rd.s);
        }
        if found == Commit {
          return;
        }
        MovedShrinks(rd.log, s0, rd.s);
      }
    }

    /** Delivers data of the commit record: first from the header buffer, then from the record. */
    method TakeCommit(room: nat) returns (d: seq<Byte>)
      requires rd.Valid() && !rd.skippingPartial && Settled(rd.log, rd.s) && NotPast(rd.log, start, rd.s)
      requires sofar <= |buf| && room > 0
      modifies this`sofar, rd
      ensures rd.Valid() && !rd.skippingPartial && Settled(rd.log, rd.s) && NotPast(rd.log, start, rd.s)
      ensures sofar <= |buf| && |d| <= room
      ensures old(CommitRest(rd.log, buf, sofar, rd.s)) == d + CommitRest(rd.log, buf, sofar, rd.s)
      ensures old(CommitRest(rd.log, buf, sofar, rd.s)) != [] ==> d != []
      ensures RecordEnd(rd.log, rd.s) == old(RecordEnd(rd.log, rd.s))
      ensures rd.s == old(rd.s) || Moved(rd.log, old(rd.s), rd.s)
    {
      hide Moved, Undelivered, RecordEnd, NotPast, Settled, Ahead, Sound, FilesBounded;
      ghost var s0 := rd.s;
      SettledLeft(rd.log, s0);
      var size := if |buf| - sofar < room then |buf| - sofar else room;
      d := buf[sofar..sofar + size];
      SplitRest(buf, sofar, size, Undelivered(rd.log, s0));
      sofar := sofar + size;
      if size < room && !rd.EndOfRecord() {
        var more := ReadOn(rd, room - size);
        NotPastMoved(rd.log, start, s0, rd.s);
        SplitMore(d, more, Undelivered(rd.log, rd.s));
        d := d + more;
      }
    }

    /** Goes on after the last byte of a commit record: to its out-of-band data, if any. */
    method FinishCommit()
      requires Valid() && state == CommitRecord && CommitRest(rd.log, buf, sofar, rd.s) == [] && !rd.s.inRecord
      modifies this, oob
      ensures Valid() && StillToCome() == old(StillToCome()) && start == old(start)
      ensures MustTakeNext() == old(MustTakeNext())
      ensures state == if count == 0 then NextGroup else OobData
    {
      hide Locate, RestOf, NextRecord, Ahead, Groups, Contents, HeapOf, NotPast, StateRecordFirst, Finite, Excess;
      EmptyFront(Oob(rd.log, count, last).Then(Oob(rd.log, count2, last2)), Groups(rd.log, start, RecordEnd(rd.log, rd.s), false));
      if count == 0 {
        EmptyFront(NOTHING, Groups(rd.log, start, RecordEnd(rd.log, rd.s), false));
        WorksOn(rd.log, start, rd.s, rd.handle);
        state := NextGroup;
      } else {
        NotTorn(HeapOf(rd.log), last, Oob(rd.log, count2, last2), Groups(rd.log, start, RecordEnd(rd.log, rd.s), false));
        oob.StartTraversal(last, rd);
        saved := rd.s;
        state := OobData;
      }
    }

    /** Delivers data of the commit record, and goes on when it is used up. */
    method EmitCommit(room: nat) returns (d: seq<Byte>)
      requires Valid() && state == CommitRecord && room > 0
      modifies this, rd, oob
      ensures Valid() && |d| <= room && start == old(start)
      ensures old(StillToCome()) == Flow(d, Done).Then(StillToCome())
      ensures state == CommitRecord ==> d != []
      ensures if d == [] then MustTakeNext() == old(MustTakeNext()) else old(MustTakeNext()) == 0
      ensures rd.s == old(rd.s) || Moved(rd.log, old(rd.s), rd.s)
    {
      hide Locate, RestOf, NextRecord, Ahead, Groups, Oob, RecordEnd, NotPast, StateRecordFirst, Settled, FilesBounded, CommitRest, Sound, Moved;
      hide Excess, FirstExcess, HeapOf, Contents, Finite;
      ghost var f := Oob(rd.log, count, last).Then(Oob(rd.log, count2, last2));
      ghost var g := Groups(rd.log, start, RecordEnd(rd.log, rd.s), false);
      d := TakeCommit(room);
      TakeFront(d, CommitRest(rd.log, buf, sofar, rd.s), f, g);
      CommitRestEmpty(rd.log, buf, sofar, rd.s);
      if sofar == |buf| && rd.EndOfRecord() {
        FinishCommit();
      }
    }

    /** Delivers out-of-band data, and goes on to the secondary data or the next event group when
        it is used up. */
    method EmitOob(len: nat) returns (res: int, d: seq<Byte>, ghost dropped: seq<Byte>)
      requires Valid() && state == OobData
      modifies this, rd, oob
      ensures start == old(start)
      ensures res < 0 ==> old(StillToCome()) == Flow([], Fault) && dropped == []
      ensures res >= 0 ==> Valid() && res == |d| <= len && old(StillToCome()) == Flow(d + dropped, Done).Then(StillToCome())
      ensures res >= 0 && len > 0 ==> d != []
      ensures res >= 0 ==> (dropped != [] <==> len < old(oob.NextMustTake(rd)))
    {
      hide Locate, RestOf, NextRecord, Ahead, Groups, Contents, HeapOf, NotPast, StateRecordFirst, FilesBounded, Sound, Finite;
      hide Pending, StackOk, MustTake;
      ghost var f := Oob(rd.log, count2, last2);
      ghost var g := Groups(rd.log, start, Where(saved), false);
      res, d, dropped := oob.ReadData(rd, len);
      if res >= 0 {
        ThenAssociates(Flow(d + dropped, Done), oob.StillToCome(rd), f);
        ThenAssociates(Flow(d + dropped, Done), oob.StillToCome(rd).Then(f), g);
        if oob.stack == [] {
          NonePending(rd.log, rd.s);
          EmptyFront(f, g);
          NextTree(f, g);
        }
      }
    }

    /** The traversal is done: start the secondary one, or return to the commit stream. */
    method NextTree(ghost f: Flow, ghost g: Flow)
      requires rd.Valid() && !rd.skippingPartial && StateRecordFirst(rd.log, start) && state == OobData && oob.stack == []
      requires Sound(rd.log, saved) && !saved.inRecord && NotPast(rd.log, start, saved)
      requires f == Oob(rd.log, count2, last2) && g == Groups(rd.log, start, Where(saved), false)
      requires f.Then(g).end != Torn
      modifies this, rd, oob
      ensures Valid() && start == old(start)
      ensures StillToCome() == f.Then(g)
    {
      hide Locate, RestOf, NextRecord, Ahead, Groups, Contents, HeapOf, NotPast, StateRecordFirst, FilesBounded, Sound, Finite;
      hide Pending, StackOk;
      if count2 > 0 {
        NotTorn(HeapOf(rd.log), last2, NOTHING, g);
        count, last := count2, last2;
        count2 := 0;
        oob.StartTraversal(last, rd);
      } else {
        rd.RestorePos(saved);
        state := NextGroup;
      }
    }

    /** Delivers data of the current commit record, or of the next one. */
    method CommitTurn(room: nat) returns (found: Find, d: seq<Byte>)
      requires Valid() && state != OobData && room > 0
      modifies this, rd, oob
      ensures start == old(start) && found != PassedBy
      ensures found == BadCommit ==> old(StillToCome()) == Flow([], Fault)
      ensures found == NoCommit ==> Valid() && d == [] && StillToCome() == NOTHING == old(StillToCome())
      ensures found == NoCommit ==> old(MustTakeNext()) == 0
      ensures found == Commit ==> if d == [] then MustTakeNext() == old(MustTakeNext()) else old(MustTakeNext()) == 0
      ensures found == Commit ==> Valid() && |d| <= room && old(StillToCome()) == Flow(d, Done).Then(StillToCome())
      ensures found == Commit && state == CommitRecord ==> d != []
      ensures found == Commit ==> Moved(rd.log, old(rd.s), rd.s) || (rd.s == old(rd.s) && old(state) == CommitRecord)
    {
      hide Ahead, Groups, Oob, RecordEnd, Skippable, NotPast, AtWork, FilesBounded, Contents, Pending, MustTake;
      hide FilesFrom, PagesFrom, BytesFrom, ChunkFrom, StateRecordFirst, Settled, CommitRest, Moved, Sound, StackOk;
      hide EventReader.MustTakeNext;
      found, d := Commit, [];
      ghost var s0 := rd.s;
      if state == NextGroup {
        found := FindCommit();
        if found != Commit {
          return;
        }
      }
      ghost var s1 := rd.s;
      d := EmitCommit(room);
      Onward(rd.log, s0, s1, rd.s);
    }

    lemma AmongNodes()
      requires Valid() && state == OobData
      ensures MustTakeNext() == oob.NextMustTake(rd) <= MAX_EXCESS
    {
      ExcessBound(rd.log, oob.stack, rd.s);
    }

    lemma PositionSound()
      requires Valid()
      ensures Sound(rd.log, rd.s)
    {
    }

    /** Delivers the next bytes of the event groups of the file, at most `len` of them; 0 means that
        there are no more, -1 a corrupt log. Nothing is dropped when `len` is large enough. */
    method ReadData(len: nat) returns (res: int, data: seq<Byte>, ghost dropped: seq<Byte>)
      requires Valid() && len > 0
      modifies this, rd, oob
      ensures start == old(start)
      ensures res < 0 ==> old(StillToCome()).end == Fault
      ensures res >= 0 ==> Valid() && res == |data| <= len
      ensures res >= 0 ==> old(StillToCome()) == Flow(data + dropped, Done).Then(StillToCome())
      ensures res == 0 ==> StillToCome() == NOTHING && dropped == []
      ensures len >= MAX_EXCESS ==> dropped == []
      ensures res >= 0 ==> (dropped != [] <==> len < old(MustTakeNext()))
    {
      hide EventReader.MustTakeNext, EventReader.StillToCome, EventReader.Valid;
      hide FilesFrom, PagesFrom, BytesFrom, ChunkFrom, Moved, Sound, Pending, MustTake, StackOk, Flow.Then;
      data, dropped := [], [];
      ghost var all, must := StillToCome(), MustTakeNext();
      EmptyFront(all, NOTHING);
      while true
        invariant Valid() && |data| < len && start == old(start) && dropped == []
        invariant all == Flow(data, Done).Then(StillToCome())
        invariant state == OobData ==> data == []
        invariant if data == [] then MustTakeNext() == must else must == 0
        decreases FilesFrom(rd.log, rd.s.file), PagesFrom(rd.log, Where(rd.s)), BytesFrom(Where(rd.s)), ChunkFrom(rd.s),
                  if state == CommitRecord then 1 else 0
      {
        if state == OobData {
          AmongNodes();
          EmptyFront(StillToCome(), NOTHING);
          res, data, dropped := EmitOob(len);
          return;
        }
        ghost var s0 := rd.s;
        PositionSound();
        var found, d := CommitTurn(len - |data|);
        if found == NoCommit {
          assert data + dropped == data;
          return |data|, data, dropped;
        }
        if found == BadCommit {
          FaultBehind(data);
          return -1, [], [];
        }
        MoreFront(data, d, StillToCome());
        data := data + d;
        assert data + dropped == data;
        PositionSound();
        if state == CommitRecord || (data != [] && (state == OobData || |data| == len || rd.IsEndOfPage())) {
          return |data|, data, dropped;
        }
        Onward(rd.log, s0, s0, rd.s);
      }
    }
  }

  /** A group further on: less of the log is left. */
  lemma Onward(log: Log, a: Position, b: Position, c: Position)
    requires (a == b || Moved(log, a, b)) && (b == c || Moved(log, b, c)) && Sound(log, a) && Sound(log, b) && Sound(log, c)
    ensures a == c || Moved(log, a, c)
    ensures Moved(log, a, b) ==> a != c
    ensures a != c ==> a.file != c.file ==> FilesFrom(log, c.file) < FilesFrom(log, a.file)
    ensures a != c ==> a.file == c.file && a.page != c.page ==> PagesFrom(log, Where(c)) < PagesFrom(log, Where(a))
    ensures a.file == c.file && a.page == c.page ==> PagesFrom(log, Where(c)) == PagesFrom(log, Where(a))
    ensures a != c ==> a.file == c.file && a.page == c.page && a.off != c.off ==> BytesFrom(Where(c)) < BytesFrom(Where(a))
    ensures Where(a) == Where(c) ==> a == c || ChunkFrom(c) < ChunkFrom(a)
  {
    hide FilesFrom, ChunkFrom, Sound, BytesFrom;
    if a != b && b != c {
      MovedTwice(log, a, b, c);
    }
    if a != c {
      MovedShrinks(log, a, c);
    }
  }

  lemma FaultBehind(data: seq<Byte>)
    ensures Flow(data, Done).Then(Flow([], Fault)).end == Fault
  {
  }

  lemma MoreFront(a: seq<Byte>, b: seq<Byte>, f: Flow)
    ensures Flow(a, Done).Then(Flow(b, Done).Then(f)) == Flow(a + b, Done).Then(f)
  {
    ThenAssociates(Flow(a, Done), Flow(b, Done), f);
  }

  /** An empty stream in front changes nothing. */
  lemma EmptyFront(f: Flow, g: Flow)
    ensures Flow([], Done).Then(f) == f
    ensures Flow([], Done).Then(f).Then(g) == f.Then(g)
    ensures f.Then(NOTHING) == f
  {
    assert [] + f.bytes == f.bytes && f.bytes + [] == f.bytes;
  }

  /** A stream that is not torn starts with contents that unfold to a finite tree. */
  lemma NotTorn(h: Heap, a: Addr, f: Flow, g: Flow)
    requires Contents(h, a, true).Then(f).Then(g).end != Torn
    ensures Finite(h, a, true)
  {
    hide Finite, TreeAt, PostOrder;
  }

  lemma CommitRestEmpty(log: Log, buf: seq<Byte>, sofar: nat, s: Position)
    requires sofar <= |buf| && Settled(log, s)
    ensures CommitRest(log, buf, sofar, s) == [] <==> sofar == |buf| && !s.inRecord
  {
    SettledLeft(log, s);
  }

  lemma SplitRest(buf: seq<Byte>, sofar: nat, size: nat, left: seq<Byte>)
    requires sofar + size <= |buf|
    ensures buf[sofar..] + left == buf[sofar..sofar + size] + (buf[sofar + size..] + left)
    ensures sofar + size == |buf| ==> buf[sofar + size..] == []
  {
  }

  lemma SplitMore(d: seq<Byte>, more: seq<Byte>, left: seq<Byte>)
    ensures d + ([] + (more + left)) == (d + more) + ([] + left)
  {
  }

  lemma NotPastMoved(log: Log, start: nat, s0: Position, s: Position)
    requires NotPast(log, start, s0) && Moved(log, s0, s) && Sound(log, s)
    ensures NotPast(log, start, s)
  {
  }

  /** Taking bytes off the front of a stream. */
  lemma TakeFront(d: seq<Byte>, rest: seq<Byte>, f: Flow, g: Flow)
    ensures Flow(d + rest, Done).Then(f).Then(g) == Flow(d, Done).Then(Flow(rest, Done).Then(f).Then(g))
  {
    ThenAssociates(Flow(d, Done), Flow(rest, Done), f);
    ThenAssociates(Flow(d, Done), Flow(rest, Done).Then(f), g);
  }

  lemma DeliveredType(log: Log, r: Record, d: seq<Byte>, s: Position, partial: bool)
    requires Sound(log, s) && Delivered(log, r, d, s, partial) && r.Whole?
    ensures RecordType(s.kind) == r.rtype
  {
  }

  lemma NotBehind(log: Log, start: nat, s: Position, handle: Handle)
    requires AtWork(log, start, s, handle)
    ensures s.file >= start
  {
  }

  lemma WorksOn(log: Log, start: nat, s: Position, handle: Handle)
    requires NotPast(log, start, s)
    ensures AtWork(log, start, s, handle)
  {
  }

  /** The 32-bit end-of-file test, as far as it matters. */
  lemma EndOfFileTest(rd: ChunkReader, start: nat)
    requires rd.Valid() && rd.s.file == start && AtWork(rd.log, start, rd.s, rd.handle)
    ensures rd.IsEndOfFile() ==> !NotPast(rd.log, start, rd.s) && !rd.s.inRecord
    ensures !rd.IsEndOfFile() ==> NotPast(rd.log, start, rd.s)
  {
    var p := PAGE_SIZE * rd.s.page + rd.s.off;
    if p < 0x1_0000_0000 {
      assert rd.CurrentPos() == p;
    }
  }

  /** A commit record found with the full header buffer. */
  lemma CommitFound(log: Log, r: Record, data: seq<Byte>, s: Position, partial: bool)
    requires r.Whole? && Sound(log, s) && Delivered(log, r, data, s, partial)
    requires |data| <= HEADER_BUFFER && (|data| == HEADER_BUFFER || !s.inRecord)
    ensures Settled(log, s)
    ensures var h := ParseCommit(data);
            Group(log, r.data)
            == if h.ShortCommit? then Flow([], Fault)
               else Flow(CommitRest(log, data, h.len, s), Done)
                      .Then(Oob(log, h.count, h.last).Then(Oob(log, h.count2, h.last2)))
    ensures var h := ParseCommit(data);
      h.CommitHeader? ==> forall next ::
        GroupExcess(log, r.data, next) == ExcessAfter(log, CommitRest(log, data, h.len, s), h.count, h.last, next)
  {
    hide Locate, RestOf, NextRecord, Ahead, Undelivered, Settled, Sound, ParseCommit, Oob;
    EndStays(log, r, data, s, partial);
    WhatIsLeft(log, r, data, s);
    HeaderFitsExactly(r.data);
    assert Take(r.data, HEADER_BUFFER) == data;
    var h := ParseCommit(data);
    if h.CommitHeader? {
      assert r.data[h.len..] == data[h.len..] + Undelivered(log, s);
    }
  }

  lemma NoMoreGroups(log: Log, start: nat, s: Position, partial: bool)
    requires Sound(log, s)
    requires s.file > start || (s.file == start && !s.inRecord && !NotPast(log, start, s))
    ensures Groups(log, start, RecordEnd(log, s), partial) == NOTHING && Excess(log, start, RecordEnd(log, s), partial) == 0
  {
    EndIsLater(log, s);
  }

  /** At the end of the log there is nothing more to come. */
  lemma LogEnded(log: Log, start: nat, s0: Position, s: Position, partial: bool)
    requires Sound(log, s) && !s.inRecord && Ahead(log, s, partial) == Nothing
    requires NotPast(log, start, s0) && (s == s0 || Reached(log, Where(s0), Where(s)))
    ensures NotPast(log, start, s) && Skippable(log, s) && Groups(log, start, RecordEnd(log, s), partial) == NOTHING
  {
  }

  /** Passing over a record that is not a commit record. */
  lemma PassedOver(log: Log, start: nat, r: Record, d: seq<Byte>, s0: Position, s: Position, partial: bool)
    requires r.Whole? && r.rtype != TYPE_COMMIT && Sound(log, s) && Delivered(log, r, d, s, partial)
    requires s0.file >= start && Moved(log, s0, s)
    ensures var t := s.(skipCurrent := s.skipCurrent || s.inRecord);
            Skippable(log, t) && NotPast(log, start, t) && RecordEnd(log, t) == r.end
            && Moved(log, s0, t)
  {
    EndStays(log, r, d, s, partial);
    StillNotPast(log, start, s0, s);
    if s.inRecord {
      assert s.(skipCurrent := true).(skipCurrent := false) == s;
    }
  }

  /** An offset has one place. */
  lemma PlaceOf(file: nat, position: nat, p: Pos)
    requires position < 0x1_0000_0000 && p.file == file && p.off < PAGE_SIZE && PAGE_SIZE * p.page + p.off == position
    ensures PosOf(file, position) == p
  {
  }

  /** The data of the commit record that has not been delivered. */
  ghost function CommitRest(log: Log, buf: seq<Byte>, sofar: nat, s: Position): seq<Byte> {
    if sofar <= |buf| then buf[sofar..] + Undelivered(log, s) else []
  }

  /** Not past the end of the file, or right after opening the file at some offset. */
  ghost predicate AtWork(log: Log, start: nat, s: Position, handle: Handle) {
    || NotPast(log, start, s)
    || (s.file == start && !s.inRecord && handle.Open? && PAGE_SIZE * s.page + s.off < 0x1_0000_0000)
  }
}
