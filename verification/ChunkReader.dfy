/** The chunk reader: hands out the bytes of one record after another, across chunks, pages
    and files, in pieces of any size.

    `Ahead` is the specification: the record that the next read takes its bytes from. It is a
    function of the position, the skip-partial flag and the log only; the open file handle and
    the page buffer are a cache, tied to the position by `CacheOk`.
  */
module ChunkReading {
  import opened BinlogFormat

  /** A position that can be saved and restored. */
  datatype Position = Position(
    file: nat,
    page: nat,
    off: nat,            // start of the current chunk inside the page
    chunkLen: nat,       // 0 until the header of the current chunk has been read
    readOff: nat,        // bytes of the current chunk already delivered
    kind: Byte,
    skipCurrent: bool,
    inRecord: bool)

  function Where(s: Position): Pos {
    Pos(s.file, s.page, s.off)
  }

  function MoveTo(s: Position, p: Pos): Position {
    s.(file := p.file, page := p.page, off := p.off)
  }

  /** What every stored position satisfies. Outside a record the last kind byte carries LAST
      and nothing is being skipped; inside a chunk the position names that chunk. */
  ghost predicate Sound(log: Log, s: Position) {
    && s.off < PAGE_SIZE
    && (!s.inRecord ==> s.chunkLen == 0 && IsLast(s.kind) && !s.skipCurrent)
    && (s.chunkLen == 0 ==> s.readOff == 0 && (s.inRecord ==> !IsLast(s.kind)))
    && (s.chunkLen > 0 ==> 0 < s.readOff < s.chunkLen && InChunk(log, s))
  }

  ghost predicate InChunk(log: Log, s: Position) {
    var c := Locate(log, Where(s));
    c.At? && c.at == Where(s) && c.kind == s.kind && |c.data| == s.chunkLen
  }

  /** The part of the record that starts after the current chunk, given that chunk's data. */
  ghost function AfterChunk(log: Log, s: Position, d: seq<Byte>): Record
    requires InChunk(log, s)
  {
    var next := After(log, Where(s), s.chunkLen);
    if IsLast(s.kind) then Whole(RecordType(s.kind), d, next)
    else Prepend(d, RestOf(log, next, RecordType(s.kind)))
  }

  /** The record that the next read delivers from: the rest of the current one when inside a
      record, otherwise the next one. */
  ghost function Ahead(log: Log, s: Position, partial: bool): Record
    requires s.chunkLen > 0 ==> InChunk(log, s) && s.readOff <= s.chunkLen
  {
    if !s.inRecord then NextRecord(log, Where(s), partial)
    else if s.chunkLen == 0 then RestOf(log, Where(s), RecordType(s.kind))
    else if !s.skipCurrent then AfterChunk(log, s, Locate(log, Where(s)).data[s.readOff..])
    else if IsLast(s.kind) then NextRecord(log, After(log, Where(s), s.chunkLen), partial)
    else RestOf(log, After(log, Where(s), s.chunkLen), RecordType(s.kind))
  }

  /** The length of the first chunk from `p` on that a read does not pass over: inside a record of type `t`, or outside
      of any. */
  ghost function FirstChunk(log: Log, p: Pos, inside: bool, t: Byte, partial: bool): nat
    decreases FilesFrom(log, p.file), PagesFrom(log, p), BytesFrom(p)
  {
    var c := Locate(log, p);
    if !c.At? then 0
    else if if inside then RecordType(c.kind) != t && MayNest(RecordType(c.kind)) else IsCont(c.kind) && partial then
      var next := After(log, c.at, |c.data|);
      AfterIsLater(log, p);
      ReachedOn(log, p, p, next);
      FirstChunk(log, next, inside, t, partial)
    else |c.data|
  }

  /** How much is left of the chunk that the next read takes its bytes from. */
  ghost function Left(log: Log, s: Position, partial: bool): nat
    requires s.chunkLen > 0 ==> InChunk(log, s) && s.readOff <= s.chunkLen
  {
    if s.chunkLen == 0 then FirstChunk(log, Where(s), s.inRecord, RecordType(s.kind), partial)
    else if !s.skipCurrent then s.chunkLen - s.readOff
    else FirstChunk(log, After(log, Where(s), s.chunkLen), s.inRecord && !IsLast(s.kind), RecordType(s.kind), partial)
  }

  /** `s` follows `s0`: a later chunk, or further inside the same chunk. */
  ghost predicate Moved(log: Log, s0: Position, s: Position) {
    || Reached(log, Where(s0), Where(s))
    || (Where(s0) == Where(s) && s.chunkLen > 0 && s0.readOff < s.readOff
        && (s0.chunkLen > 0 ==> s0.chunkLen == s.chunkLen))
  }

  /** Bytes of the current chunk still to be read, for termination. */
  ghost function ChunkFrom(s: Position): nat {
    if 0 < s.chunkLen && s.readOff <= s.chunkLen then s.chunkLen - s.readOff else 0x1_0000
  }

  lemma MovedShrinks(log: Log, a: Position, b: Position)
    requires Moved(log, a, b) && Sound(log, a) && Sound(log, b)
    ensures a.file != b.file ==> FilesFrom(log, b.file) < FilesFrom(log, a.file)
    ensures a.file == b.file && a.page != b.page ==> PagesFrom(log, Where(b)) < PagesFrom(log, Where(a))
    ensures a.file == b.file && a.page == b.page ==> PagesFrom(log, Where(b)) == PagesFrom(log, Where(a))
    ensures a.file == b.file && a.page == b.page && a.off != b.off ==> BytesFrom(Where(b)) < BytesFrom(Where(a))
    ensures Where(a) == Where(b) ==> ChunkFrom(b) < ChunkFrom(a)
  {
    if Before(log, Where(a), Where(b)) {
      BeforeShrinks(log, Where(a), Where(b));
    }
  }

  lemma MovedTwice(log: Log, a: Position, b: Position, c: Position)
    requires Moved(log, a, b) && Moved(log, b, c) && Sound(log, b) && Sound(log, c)
    ensures Moved(log, a, c)
  {
  }

  lemma MovedFurther(log: Log, a: Position, b: Position, c: Position)
    requires Moved(log, b, c) && (a == b || Reached(log, Where(a), Where(b)))
    ensures Moved(log, a, c)
  {
  }

  function Least(a: nat, b: nat): nat {
    if a < b then a else b
  }

  function U32(x: nat): nat {
    x % 0x1_0000_0000
  }

  /** Below 4 GiB the 32-bit end-of-file test is the page-count test. */
  lemma PastEnd(page: nat, off: nat, pages: nat)
    requires PAGE_SIZE * pages < 0x1_0000_0000 && off < PAGE_SIZE
    ensures U32(page * PAGE_SIZE) + off >= PAGE_SIZE * pages ==> page >= pages
    ensures page <= pages ==> U32(page * PAGE_SIZE) == page * PAGE_SIZE
  {
  }

  /** Where a position past the end of its file leads to. */
  ghost function PageHolding(log: Log, p: Pos): (r: Pos)
    ensures r.file in log ==> r.page < |log[r.file]|
    ensures r == p || (Before(log, p, r) && p.file < r.file && r.off == p.off)
    decreases FilesFrom(log, p.file)
  {
    if p.file !in log || p.page < |log[p.file]| then p
    else
      BeforeShrinks(log, p, Pos(p.file + 1, 1, p.off));
      PageHolding(log, Pos(p.file + 1, 1, p.off))
  }

  lemma {:induction false} PageHoldingLocates(log: Log, p: Pos)
    ensures Locate(log, PageHolding(log, p)) == Locate(log, p)
    decreases FilesFrom(log, p.file)
  {
    if p.file in log && p.page >= |log[p.file]| {
      BeforeShrinks(log, p, Pos(p.file + 1, 1, p.off));
      PageHoldingLocates(log, Pos(p.file + 1, 1, p.off));
    }
  }

  const NO_LENGTH: nat := 0xFFFF_FFFF_FFFF_FFFF

  datatype Handle = Closed | Open(file: nat)

  datatype FetchStatus = FetchError | FetchEof | FetchFound

  /** The outcome of one turn of the read loop: nothing there, bad chunk, buffer full inside a
      chunk, or moved on to the next chunk or page. */
  datatype Turn = AtEnd | Failed | Filled | MovedOn

  /** The outcome of looking at a chunk header. */
  datatype Verdict = Use | Skip | Corrupt

  function HeaderVerdict(s: Position, kind: Byte, partial: bool): Verdict {
    if !s.inRecord then
      if !IsCont(kind) || s.skipCurrent then Use else if partial then Skip else Corrupt
    else if RecordType(kind) != RecordType(s.kind) then
      if MayNest(RecordType(kind)) then Skip else Corrupt
    else if IsCont(kind) then Use else Corrupt
  }

  function Finished(log: Log, s: Position): Position
    requires s.file in log
  {
    var t := MoveTo(s, After(log, Where(s), s.chunkLen)).(chunkLen := 0, readOff := 0);
    if IsLast(s.kind) then t.(inRecord := false, skipCurrent := false) else t
  }

  lemma PrependPrepend(a: seq<Byte>, b: seq<Byte>, r: Record)
    ensures Prepend(a, Prepend(b, r)) == Prepend(a + b, r)
  {
    if r.Whole? {
      assert a + (b + r.data) == a + b + r.data;
    }
  }

  lemma PrependNothing(r: Record)
    ensures Prepend([], r) == r
  {
    if r.Whole? {
      assert [] + r.data == r.data;
    }
  }

  /** Passing over filler, page ends and file ends does not change what is ahead. */
  lemma SameLookupSameFuture(log: Log, s: Position, q: Pos, partial: bool)
    requires Sound(log, s) && s.chunkLen == 0 && q.off < PAGE_SIZE
    requires Locate(log, q) == Locate(log, Where(s))
    ensures Sound(log, MoveTo(s, q))
    ensures Ahead(log, MoveTo(s, q), partial) == Ahead(log, s, partial)
    ensures Left(log, MoveTo(s, q), partial) == Left(log, s, partial)
  {
  }

  /** The position right after the header of the chunk at `s` has been accepted. */
  function Entered(s: Position, kind: Byte, len: nat): Position {
    s.(chunkLen := len, readOff := 0, kind := kind, skipCurrent := false, inRecord := true)
  }

  lemma FinishedSound(log: Log, s: Position, c: Lookup)
    requires c == Locate(log, Where(s)) && c.At? && c.at == Where(s) && s.chunkLen == |c.data|
    requires !s.inRecord ==> IsLast(s.kind)
    ensures Sound(log, Finished(log, s))
    ensures Reached(log, Where(s), Where(Finished(log, s)))
  {
    AfterIsLater(log, Where(s));
  }

  /** A chunk that is passed over does not change what is ahead. */
  lemma SkippedChunk(log: Log, s: Position, c: Lookup, skip: bool, partial: bool)
    requires Sound(log, s) && s.chunkLen == 0
    requires c == Locate(log, Where(s)) && c.At? && c.at == Where(s)
    requires HeaderVerdict(s, c.kind, partial) == Skip
    requires s.inRecord ==> skip == s.skipCurrent
    ensures var t := Finished(log, s.(chunkLen := |c.data|, skipCurrent := skip));
            && Sound(log, t) && Reached(log, Where(s), Where(t)) && t.inRecord == s.inRecord && t.kind == s.kind
            && t.skipCurrent == s.skipCurrent
            && Ahead(log, t, partial) == Ahead(log, s, partial) && Left(log, t, partial) == Left(log, s, partial)
  {
    FinishedSound(log, s.(chunkLen := |c.data|, skipCurrent := skip), c);
  }

  lemma CorruptChunk(log: Log, s: Position, c: Lookup, partial: bool)
    requires Sound(log, s) && s.chunkLen == 0
    requires c == Locate(log, Where(s)) && c.At? && c.at == Where(s)
    requires HeaderVerdict(s, c.kind, partial) == Corrupt
    ensures Ahead(log, s, partial) == Broken
  {
  }

  lemma NoChunk(log: Log, s: Position, partial: bool)
    requires Sound(log, s) && s.chunkLen == 0
    ensures Locate(log, Where(s)) == End ==> Ahead(log, s, partial) == if s.inRecord then Broken else Nothing
    ensures Locate(log, Where(s)) == Garbled ==> Ahead(log, s, partial) == Broken
  {
  }

  /** Accepting a chunk header: the record ahead is this chunk and what follows it. */
  lemma EnteredChunk(log: Log, s: Position, c: Lookup, partial: bool)
    requires Sound(log, s) && s.chunkLen == 0
    requires c == Locate(log, Where(s)) && c.At? && c.at == Where(s)
    requires HeaderVerdict(s, c.kind, partial) == Use
    ensures InChunk(log, Entered(s, c.kind, |c.data|))
    ensures |c.data| > 0 ==> Ahead(log, Entered(s, c.kind, |c.data|), partial) == Ahead(log, s, partial)
    ensures |c.data| > 0 ==> Left(log, Entered(s, c.kind, |c.data|), partial) == Left(log, s, partial) == |c.data|
    ensures |c.data| == 0 ==> Ahead(log, s, partial) == Broken
    ensures s.inRecord ==> RecordType(c.kind) == RecordType(s.kind)
  {
    assert c.data[0..] == c.data;
  }

  /** Delivering part of a chunk. */
  lemma TookPart(log: Log, s: Position, n: nat, partial: bool)
    requires InChunk(log, s) && s.inRecord && !s.skipCurrent && s.off < PAGE_SIZE
    requires 0 < s.readOff + n < s.chunkLen
    ensures var d := Locate(log, Where(s)).data; var t := s.(readOff := s.readOff + n);
            && Sound(log, t)
            && Ahead(log, s, partial) == Prepend(d[s.readOff..t.readOff], Ahead(log, t, partial))
  {
    var d := Locate(log, Where(s)).data;
    var t := s.(readOff := s.readOff + n);
    assert d[s.readOff..] == d[s.readOff..t.readOff] + d[t.readOff..];
    if !IsLast(s.kind) {
      PrependPrepend(d[s.readOff..t.readOff], d[t.readOff..],
                     RestOf(log, After(log, Where(s), s.chunkLen), RecordType(s.kind)));
    }
  }

  /** Delivering the rest of a chunk. */
  lemma TookRest(log: Log, s: Position, partial: bool)
    requires InChunk(log, s) && s.inRecord && !s.skipCurrent
    requires s.readOff < s.chunkLen
    ensures var d := Locate(log, Where(s)).data[s.readOff..]; var t := Finished(log, s);
            && Sound(log, t) && Reached(log, Where(s), Where(t)) && t.inRecord == !IsLast(s.kind)
            && Ahead(log, s, partial) == if t.inRecord then Prepend(d, Ahead(log, t, partial))
                                         else Whole(RecordType(s.kind), d, Where(t))
  {
    FinishedSound(log, s, Locate(log, Where(s)));
  }

  /** Dropping the rest of the current chunk. */
  lemma SkippedRest(log: Log, s: Position, partial: bool)
    requires Sound(log, s) && s.chunkLen > 0 && s.skipCurrent
    ensures var t := Finished(log, s);
            && Sound(log, t) && Reached(log, Where(s), Where(t)) && Ahead(log, t, partial) == Ahead(log, s, partial)
            && Left(log, t, partial) == Left(log, s, partial)
  {
    FinishedSound(log, s, Locate(log, Where(s)));
  }

  /** One turn delivered `d` of the record `ahead` and left the reader at `s`. */
  ghost predicate TurnTaken(log: Log, ahead: Record, d: seq<Byte>, s: Position, partial: bool)
    requires Sound(log, s)
  {
    && (ahead != Broken ==>
          ahead == if d != [] && !s.inRecord then Whole(RecordType(s.kind), d, Where(s))
                   else Prepend(d, Ahead(log, s, partial)))
    && (d != [] ==> !s.skipCurrent)
  }

  /** `data` is a non-empty piece of the record `goal`, and `s` stands right after it: inside
      the record with the rest ahead, or at its end when the piece was the last one. */
  ghost predicate Delivered(log: Log, goal: Record, data: seq<Byte>, s: Position, partial: bool)
    requires Sound(log, s)
  {
    goal.Whole? ==>
      && data != [] && !s.skipCurrent && RecordType(s.kind) == goal.rtype
      && (if s.inRecord then Prepend(data, Ahead(log, s, partial)) == goal
          else data == goal.data && Where(s) == goal.end)
  }

  lemma AheadType(log: Log, s: Position, partial: bool)
    requires Sound(log, s) && s.inRecord && !s.skipCurrent && Ahead(log, s, partial).Whole?
    ensures Ahead(log, s, partial).rtype == RecordType(s.kind)
  {
  }

  /** Turns add up: a turn after `got` bytes of `goal` leaves more bytes of `goal`. */
  lemma TurnsAddUp(log: Log, goal: Record, got: seq<Byte>, s0: Position, d: seq<Byte>, s: Position, partial: bool)
    requires Sound(log, s0) && Sound(log, s)
    requires goal != Broken ==> goal == Prepend(got, Ahead(log, s0, partial))
    requires TurnTaken(log, Ahead(log, s0, partial), d, s, partial)
    requires got != [] && d == [] && goal != Broken ==> s.inRecord && !s.skipCurrent
    ensures goal != Broken && !(d != [] && !s.inRecord) ==> goal == Prepend(got + d, Ahead(log, s, partial))
    ensures got + d != [] && goal != Nothing ==> Delivered(log, goal, got + d, s, partial)
    ensures goal == Nothing ==> d == []
  {
    if goal != Broken {
      if d != [] && !s.inRecord {
      } else {
        PrependPrepend(got, d, Ahead(log, s, partial));
        if goal.Whole? && got + d != [] {
          AheadType(log, s, partial);
        }
      }
    }
  }

  /** The chunk that a position stands in is in the page that holds the position. */
  lemma ChunkBytes(log: Log, s: Position, b: PageBytes)
    requires InChunk(log, s) && s.file in log && s.page < |log[s.file]| && log[s.file][s.page] == Readable(b)
    ensures s.off + CHUNK_HEADER + s.chunkLen + PAGE_DATA_END <= PAGE_SIZE
    ensures Locate(log, Where(s)).data == b[s.off + CHUNK_HEADER..s.off + CHUNK_HEADER + s.chunkLen]
    ensures Locate(log, Where(s)).At?
  {
  }

  lemma SliceOfSlice(b: seq<Byte>, o: nat, len: nat, r: nat, size: nat)
    requires o + len <= |b| && r + size <= len
    ensures b[o..o + len][r..r + size] == b[o + r..o + r + size]
  {
    var chunk := b[o..o + len];
    var x, y := chunk[r..r + size], b[o + r..o + r + size];
    forall i | 0 <= i < |x|
      ensures x[i] == y[i]
    {
      assert x[i] == chunk[r + i];
    }
    assert x == y;
  }

  lemma PartOfChunk(log: Log, s: Position, b: PageBytes, size: nat)
    requires InChunk(log, s) && s.file in log && s.page < |log[s.file]| && log[s.file][s.page] == Readable(b)
    requires s.readOff + size <= s.chunkLen
    ensures Locate(log, Where(s)).At? && s.off + CHUNK_HEADER + s.readOff + size <= PAGE_SIZE
    ensures s.readOff + size <= |Locate(log, Where(s)).data|
    ensures var from := s.off + CHUNK_HEADER + s.readOff;
      b[from..from + size] == Locate(log, Where(s)).data[s.readOff..s.readOff + size]
  {
    hide Locate;
    ChunkBytes(log, s, b);
    SliceOfSlice(b, s.off + CHUNK_HEADER, s.chunkLen, s.readOff, size);
  }

  class ChunkReader {
    const log: Log
    var s: Position
    var handle: Handle
    var fileLength: nat
    var buffer: PageBytes
    var pageLoaded: bool
    var skippingPartial: bool

    /** The handle belongs to the current file, the length is that file's length, and a loaded
        page is the current page. */
    ghost predicate CacheOk()
      reads this
    {
      && FilesBounded(log)
      && (handle.Closed? ==> fileLength == NO_LENGTH && !pageLoaded)
      && (handle.Open? ==> handle.file == s.file && s.file in log && fileLength == PAGE_SIZE * |log[s.file]|)
      && (pageLoaded ==> s.page < |log[s.file]| && log[s.file][s.page] == Readable(buffer))
    }

    ghost predicate Valid()
      reads this
    {
      CacheOk() && Sound(log, s)
    }

    /** The reader as it stands after `set_fd` and `parse_file_header` on file `file`. */
    constructor (log: Log, file: nat)
      requires FilesBounded(log) && file in log
      ensures Valid() && this.log == log
      ensures s == Position(file, 0, 0, 0, 0, FILLER, false, false)
      ensures handle == Open(file) && !skippingPartial
    {
      this.log := log;
      s := Position(file, 0, 0, 0, 0, FILLER, false, false);
      handle := Open(file);
      fileLength := PAGE_SIZE * |log[file]|;
      buffer := seq(PAGE_SIZE, _ => 0);
      pageLoaded := false;
      skippingPartial := false;
    }

    function CurType(): Byte
      reads this
    {
      RecordType(s.kind)
    }

    predicate EndOfRecord()
      reads this
    {
      !s.inRecord
    }

    predicate IsEndOfPage()
      reads this
    {
      s.off >= PAGE_FULL
    }

    /** 32-bit arithmetic, as in the source. */
    function CurrentPos(): nat
      reads this
    {
      U32(s.page * PAGE_SIZE + s.off)
    }

    predicate IsEndOfFile()
      reads this
    {
      CurrentPos() + PAGE_DATA_END + CHUNK_HEADER >= fileLength
    }

    method SkipCurrent()
      modifies this`s
      ensures s == old(s).(skipCurrent := old(s.skipCurrent) || old(s.inRecord))
    {
      if s.inRecord {
        s := s.(skipCurrent := true);
      }
    }

    /** Restoring makes the reader's future that of the saved position, whatever was read and
        cached in between. */
    method RestorePos(pos: Position)
      requires CacheOk() && Sound(log, pos)
      modifies this
      ensures Valid() && s == pos && skippingPartial == old(skippingPartial)
      ensures handle.Open? ==> handle == old(handle) && pos.file == old(s.file)
      ensures old(handle).Open? && pos.file == old(s.file) ==> handle.Open?
    {
      if handle.Open? && pos.file != s.file {
        handle := Closed;
        fileLength := NO_LENGTH;
      }
      s := pos;
      pageLoaded := false;
    }

    method Seek(file: nat, offset: nat)
      requires CacheOk()
      modifies this
      ensures Valid() && !s.inRecord && s.chunkLen == 0 && Where(s) == PosOf(file, offset)
      ensures skippingPartial == old(skippingPartial)
      ensures Ahead(log, s, skippingPartial) == NextRecord(log, PosOf(file, offset), skippingPartial)
      ensures old(handle).Open? && file == old(s.file) ==> handle.Open?
    {
      var p := PosOf(file, offset);
      RestorePos(Position(p.file, p.page, p.off, 0, 0, FILLER, false, false));
    }

    /** Opens the current file unless it is open; a missing file is the end of the log. */
    method OpenFile() returns (found: bool)
      requires CacheOk() && !pageLoaded
      modifies this`handle, this`fileLength
      ensures CacheOk()
      ensures found <==> s.file in log
      ensures found <==> handle.Open?
    {
      if handle.Closed? {
        if s.file !in log {
          return false;
        }
        handle := Open(s.file);
        fileLength := PAGE_SIZE * |log[s.file]|;
      }
      return true;
    }

    /** Moves on to the first page with data of the next file. */
    method GoNextFile()
      requires CacheOk()
      modifies this`handle, this`fileLength, this`pageLoaded, this`s
      ensures CacheOk() && !pageLoaded
      ensures s == old(s).(file := old(s.file) + 1, page := 1)
    {
      handle := Closed;
      fileLength := NO_LENGTH;
      pageLoaded := false;
      s := s.(file := s.file + 1, page := 1);
    }

    /** Loads the page of the current position, moving on over file ends. */
    method FetchCurrentPage() returns (status: FetchStatus)
      requires CacheOk() && s.off < PAGE_SIZE
      modifies this`handle, this`fileLength, this`pageLoaded, this`s, this`buffer
      ensures CacheOk()
      ensures s == MoveTo(old(s), PageHolding(log, old(Where(s))))
      ensures status.FetchEof? <==> s.file !in log
      ensures status.FetchError? ==> log[s.file][s.page].Unreadable?
      ensures status.FetchFound? <==> pageLoaded
    {
      pageLoaded := false;
      ghost var target := PageHolding(log, Where(s));
      while true
        invariant CacheOk() && !pageLoaded && s.off < PAGE_SIZE
        invariant PageHolding(log, Where(s)) == target
        invariant MoveTo(s, target) == MoveTo(old(s), target)
        decreases FilesFrom(log, s.file)
      {
        var found := OpenFile();
        if !found {
          return FetchEof;
        }
        PastEnd(s.page, s.off, |log[s.file]|);
        // Past the length, or, where the 32-bit product wraps, a short read at that page.
        if U32(s.page * PAGE_SIZE) + s.off < fileLength && s.page < |log[s.file]| {
          if log[s.file][s.page].Unreadable? {
            return FetchError;
          }
          buffer := log[s.file][s.page].bytes;
          pageLoaded := true;
          return FetchFound;
        }
        FewerFiles(log, s.file, s.file + 1);
        GoNextFile();
      }
    }

    /** Moves to the start of the next page, in the next file after the last page. */
    method GoNextPage()
      requires CacheOk() && pageLoaded
      modifies this
      ensures CacheOk() && !pageLoaded && skippingPartial == old(skippingPartial)
      ensures s == MoveTo(old(s), NextPage(log, old(Where(s))))
    {
      s := s.(page := s.page + 1, off := 0);
      pageLoaded := false;
      if U32(s.page * PAGE_SIZE) >= fileLength {
        GoNextFile();
      }
    }

    /** Leaves the current chunk, and the current record when that was its last chunk. */
    method FinishChunk()
      requires CacheOk() && pageLoaded
      requires s.off + CHUNK_HEADER + s.chunkLen + PAGE_DATA_END <= PAGE_SIZE
      modifies this
      ensures CacheOk() && skippingPartial == old(skippingPartial)
      ensures s == Finished(log, old(s))
    {
      s := s.(off := s.off + CHUNK_HEADER + s.chunkLen, chunkLen := 0, readOff := 0);
      if IsLast(s.kind) {
        s := s.(inRecord := false, skipCurrent := false);
      }
      if s.off >= PAGE_FULL && CurrentPos() < fileLength {
        GoNextPage();
      }
    }

    /** The consistency checks on a chunk header: a record is a sequence of chunks of one
        type, all but the first marked as continuations, the last one marked as last. */
    method CheckChunk(kind: Byte) returns (v: Verdict)
      modifies this`s
      ensures v == HeaderVerdict(old(s), kind, skippingPartial)
      ensures v == Use ==> s == old(s).(skipCurrent := false, kind := kind, inRecord := true, readOff := 0)
      ensures v != Use ==> s == old(s).(skipCurrent := s.skipCurrent)
      ensures v != Use && old(s).inRecord ==> s == old(s)
    {
      if !s.inRecord {
        if IsCont(kind) && !s.skipCurrent {
          if skippingPartial {
            s := s.(skipCurrent := true);
            return Skip;
          }
          return Corrupt;
        }
      } else {
        if RecordType(kind) != RecordType(s.kind) {
          return if MayNest(RecordType(kind)) then Skip else Corrupt;
        }
        if !IsCont(kind) {
          return Corrupt;
        }
      }
      s := s.(skipCurrent := false, kind := kind, inRecord := true, readOff := 0);
      return Use;
    }

    /** Reads the header of the chunk at the current position and decides what to do with the
        chunk. Only called on a loaded page with room for a chunk. */
    method EnterChunk() returns (found: bool, v: Verdict)
      requires Valid() && pageLoaded && s.chunkLen == 0
      requires s.off < PAGE_FULL && buffer[s.off] != FILLER
      modifies this`s
      ensures CacheOk()
      ensures var c := Locate(log, old(Where(s)));
              && (c == End <==> !found)
              && (c == Garbled ==> v == Corrupt)
              && (c.At? ==> c.at == old(Where(s)) && v == HeaderVerdict(old(s), c.kind, skippingPartial))
              && (c.At? && v == Use ==> s == Entered(old(s), c.kind, |c.data|))
              && (c.At? && v == Skip ==> s == old(s).(chunkLen := |c.data|, skipCurrent := s.skipCurrent)
                                         && (s.inRecord ==> s.skipCurrent == old(s.skipCurrent)))
      ensures !found ==> s == old(s)
    {
      var kind := buffer[s.off];
      if kind == 0 {
        return false, Corrupt;
      }
      var len: nat := buffer[s.off + 1] as int + 256 * (buffer[s.off + 2] as int);
      if len + CHUNK_HEADER + PAGE_DATA_END > PAGE_SIZE - s.off {
        return true, Corrupt;
      }
      s := s.(chunkLen := len);
      v := CheckChunk(kind);
      return true, v;
    }

    /** Copies out up to `room` bytes of the current chunk, or drops the rest of it when it is
        being skipped. */
    method CopyOut(room: nat) returns (d: seq<Byte>)
      requires CacheOk() && pageLoaded && InChunk(log, s) && s.readOff <= s.chunkLen && 0 < room
      modifies this`s
      ensures CacheOk()
      ensures var c := Locate(log, old(Where(s))); var skip := old(s.skipCurrent && (s.readOff > 0 || IsCont(s.kind)));
              && s == old(s).(readOff := s.readOff)
              && (skip ==> s.readOff == s.chunkLen && d == [])
              && (!skip ==> s.readOff == old(s.readOff) + |d| <= s.chunkLen && d == c.data[old(s.readOff)..s.readOff])
              && (!skip ==> |d| <= room && (|d| < room ==> s.readOff == s.chunkLen))
    {
      hide InChunk, FilesBounded, Locate, IsCont;
      ChunkBytes(log, s, buffer);
      if s.skipCurrent && (s.readOff > 0 || IsCont(s.kind)) {
        s := s.(readOff := s.chunkLen);
        d := [];
      } else {
        var size := if room < s.chunkLen - s.readOff then room else s.chunkLen - s.readOff;
        var from := s.off + CHUNK_HEADER + s.readOff;
        d := buffer[from..from + size];
        PartOfChunk(log, s, buffer, size);
        s := s.(readOff := s.readOff + size);
      }
    }

    /** Makes sure the current page is loaded. */
    method EnsurePage() returns (status: FetchStatus)
      requires Valid()
      modifies this
      ensures Valid() && skippingPartial == old(skippingPartial)
      ensures s == MoveTo(old(s), Where(s))
      ensures Where(s) == old(Where(s)) || (Before(log, old(Where(s)), Where(s)) && old(s.file) < s.file)
      ensures Ahead(log, s, skippingPartial) == old(Ahead(log, s, skippingPartial))
      ensures Left(log, s, skippingPartial) == old(Left(log, s, skippingPartial))
      ensures status.FetchFound? <==> pageLoaded
      ensures status.FetchError? ==> Ahead(log, s, skippingPartial) == Broken
      ensures status.FetchEof? ==> Ahead(log, s, skippingPartial) == if s.inRecord then Broken else Nothing
    {
      if pageLoaded {
        return FetchFound;
      }
      ghost var s0 := s;
      status := FetchCurrentPage();
      PageHoldingLocates(log, Where(s0));
      if s0.chunkLen == 0 {
        SameLookupSameFuture(log, s0, Where(s), skippingPartial);
      }
    }

    /** One turn of the read loop with the page loaded and no chunk entered yet: pass over the
        end of the page, pass over a chunk, or enter a chunk. */
    method SeekChunk() returns (turn: Turn, entered: bool)
      requires Valid() && pageLoaded && s.chunkLen == 0
      modifies this
      ensures CacheOk() && skippingPartial == old(skippingPartial)
      ensures entered ==> turn == MovedOn && pageLoaded && InChunk(log, s) && s.inRecord && !s.skipCurrent && s.readOff == 0
      ensures entered ==> Where(s) == old(Where(s)) && s.off < PAGE_SIZE
      ensures entered && s.chunkLen > 0 ==>
                && Ahead(log, s, skippingPartial) == old(Ahead(log, s, skippingPartial))
                && s.chunkLen == old(Left(log, s, skippingPartial))
      ensures entered && s.chunkLen == 0 ==> old(Ahead(log, s, skippingPartial)) == Broken
      ensures entered && old(s.inRecord) ==> RecordType(s.kind) == old(RecordType(s.kind))
      ensures !entered && turn == MovedOn ==>
                && Valid() && s.inRecord == old(s.inRecord) && s.kind == old(s.kind) && s.skipCurrent == old(s.skipCurrent)
                && Reached(log, old(Where(s)), Where(s))
                && Ahead(log, s, skippingPartial) == old(Ahead(log, s, skippingPartial))
                && Left(log, s, skippingPartial) == old(Left(log, s, skippingPartial))
      ensures turn == AtEnd ==> s == old(s) && Valid()
      ensures turn == AtEnd ==> Ahead(log, s, skippingPartial) == if s.inRecord then Broken else Nothing
      ensures turn == Failed ==> old(Ahead(log, s, skippingPartial)) == Broken
      ensures turn != Filled
    {
      hide RestOf, NextRecord, FilesBounded, FileExhausted, Left;
      ghost var s0 := s;
      entered := false;
      if s.off >= PAGE_FULL || buffer[s.off] == FILLER {
        NextPageReached(log, Where(s0));
        GoNextPage();
        SameLookupSameFuture(log, s0, Where(s), skippingPartial);
        return MovedOn, false;
      }
      var found, v := EnterChunk();
      ghost var c := Locate(log, Where(s0));
      NoChunk(log, s0, skippingPartial);
      if !found {
        return AtEnd, false;
      }
      if v == Corrupt {
        if c.At? {
          CorruptChunk(log, s0, c, skippingPartial);
        }
        return Failed, false;
      }
      if v == Skip {
        SkippedChunk(log, s0, c, s.skipCurrent, skippingPartial);
        FinishChunk();
        return MovedOn, false;
      }
      EnteredChunk(log, s0, c, skippingPartial);
      return MovedOn, true;
    }

    /** The other half of a turn: deliver from the chunk at hand. */
    method ReadChunk(room: nat) returns (turn: Turn, d: seq<Byte>)
      requires CacheOk() && pageLoaded && s.off < PAGE_SIZE
      requires InChunk(log, s) && s.inRecord && 0 < room
      requires s.readOff < s.chunkLen || (s.readOff == 0 && !s.skipCurrent)
      requires s.skipCurrent ==> Sound(log, s) && s.chunkLen > 0
      modifies this
      ensures Valid() && skippingPartial == old(skippingPartial) && |d| <= room
      ensures old(s.chunkLen) > 0 ==> TurnTaken(log, old(Ahead(log, s, skippingPartial)), d, s, skippingPartial)
      ensures old(!s.skipCurrent && s.chunkLen > 0) ==> d != [] && |d| == Least(room, old(s.chunkLen - s.readOff))
      ensures old(s.skipCurrent) ==> d == [] && Left(log, s, skippingPartial) == old(Left(log, s, skippingPartial))
      ensures turn == Filled || turn == MovedOn
      ensures turn == Filled ==>
                && |d| == room && s == old(s).(readOff := s.readOff)
                && s.chunkLen > 0 && old(s.readOff) < s.readOff
      ensures turn == MovedOn ==> Reached(log, old(Where(s)), Where(s))
      ensures old(s.chunkLen) == 0 ==> d == []
    {
      hide Locate, RestOf, NextRecord, FilesBounded, FileExhausted, Ahead, Left;
      ghost var s0 := s;
      d := CopyOut(room);
      if s.chunkLen > s.readOff {
        TookPart(log, s0, |d|, skippingPartial);
        return Filled, d;
      }
      if s0.skipCurrent {
        SkippedRest(log, s0, skippingPartial);
        PrependNothing(Ahead(log, s0, skippingPartial));
      } else {
        if s0.chunkLen > 0 {
          TookRest(log, s0, skippingPartial);
          assert Locate(log, Where(s0)).data[s0.readOff..s.readOff] == Locate(log, Where(s0)).data[s0.readOff..];
        }
        FinishedSound(log, s0, Locate(log, Where(s0)));
      }
      FinishChunk();
      return MovedOn, d;
    }

    /** One turn of the read loop. */
    method TakeTurn(room: nat) returns (turn: Turn, d: seq<Byte>)
      requires Valid() && room > 0
      modifies this
      ensures skippingPartial == old(skippingPartial) && |d| <= room
      ensures turn == Failed ==> old(Ahead(log, s, skippingPartial)) == Broken
      ensures turn != Failed ==> Valid()
      ensures turn == AtEnd ==>
                && old(Ahead(log, s, skippingPartial)) == Ahead(log, s, skippingPartial)
                && Ahead(log, s, skippingPartial) == (if s.inRecord then Broken else Nothing)
                && (s == old(s) || Reached(log, old(Where(s)), Where(s)))
      ensures turn == Filled || turn == MovedOn ==>
                && TurnTaken(log, old(Ahead(log, s, skippingPartial)), d, s, skippingPartial)
                && Moved(log, old(s), s)
                && (old(s.inRecord && !s.skipCurrent && Ahead(log, s, skippingPartial) != Broken) && d == [] ==>
                      s.inRecord && !s.skipCurrent)
      ensures turn == Filled ==> |d| == room && s.inRecord
      ensures turn == MovedOn ==> Reached(log, old(Where(s)), Where(s))
      ensures (turn == Filled || turn == MovedOn) && old(Ahead(log, s, skippingPartial)) != Broken ==>
                if d != [] then |d| == Least(room, old(Left(log, s, skippingPartial)))
                else Left(log, s, skippingPartial) == old(Left(log, s, skippingPartial))
    {
      hide Locate, RestOf, NextRecord, FilesBounded, FileExhausted, Ahead, AfterChunk, FirstChunk;
      var status := EnsurePage();
      PrependNothing(Ahead(log, s, skippingPartial));
      if status != FetchFound {
        return if status == FetchEof then AtEnd else Failed, [];
      }
      if s.chunkLen == 0 {
        var entered;
        turn, entered := SeekChunk();
        if !entered {
          return turn, [];
        }
      }
      turn, d := ReadChunk(room);
    }

    /** Reads up to `maxLen` bytes of the record ahead. With `multipage` it goes on over chunk
        boundaries until the buffer is full or the record ends; without it, it stops at the end of a chunk.
        `res` is the number of bytes, 0 at the end of the log, or -1 for a corrupt log. */
    method ReadData(maxLen: nat, multipage: bool) returns (res: int, data: seq<Byte>)
      requires Valid()
      modifies this
      ensures skippingPartial == old(skippingPartial)
      ensures res >= 0 ==> Valid() && res == |data| <= maxLen
      ensures res < 0 ==> old(Ahead(log, s, skippingPartial)) == Broken
      ensures maxLen == 0 ==> res == 0 && s == old(s)
      ensures old(Ahead(log, s, skippingPartial)).Nothing? && maxLen > 0 ==>
                res == 0 && !s.inRecord && Ahead(log, s, skippingPartial) == Nothing
      ensures maxLen > 0 && old(Ahead(log, s, skippingPartial)).Whole? ==>
                && res > 0 && Delivered(log, old(Ahead(log, s, skippingPartial)), data, s, skippingPartial)
                && (if multipage then |data| == maxLen || !s.inRecord
                    else |data| == Least(maxLen, old(Left(log, s, skippingPartial))))
      ensures res > 0 ==> Moved(log, old(s), s)
      ensures res == 0 ==> s == old(s) || Reached(log, old(Where(s)), Where(s))
    {
      hide Locate, RestOf, NextRecord, FilesBounded, FileExhausted, Ahead, AfterChunk, FilesFrom, PagesFrom, BytesFrom, TurnTaken, Reached;
      hide Delivered, InChunk, Prepend, SoFar, Left;
      ghost var goal := Ahead(log, s, skippingPartial);
      data := [];
      NothingSoFar(log, s, skippingPartial);
      while |data| < maxLen
        invariant Valid() && |data| <= maxLen && skippingPartial == old(skippingPartial)
        invariant SoFar(log, goal, data, s, skippingPartial) && (data != [] ==> multipage)
        invariant goal != Broken && data == [] ==> Left(log, s, skippingPartial) == old(Left(log, s, skippingPartial))
        invariant maxLen == 0 ==> s == old(s)
        invariant (s == old(s) && data == []) || Reached(log, old(Where(s)), Where(s))
        decreases FilesFrom(log, s.file), PagesFrom(log, Where(s)), BytesFrom(Where(s))
      {
        ghost var s0 := s;
        var turn, d := TakeTurn(maxLen - |data|);
        if turn == AtEnd {
          EndSoFar(log, goal, data, s0, s, skippingPartial);
          if s != s0 {
            ReachedOn(log, old(Where(s)), Where(s0), Where(s));
          }
          return 0, [];
        }
        if turn == Failed {
          BrokenSoFar(log, goal, data, s0, skippingPartial);
          return -1, [];
        }
        MovedFurther(log, old(s), s0, s);
        if turn == MovedOn {
          ReachedOn(log, old(Where(s)), Where(s0), Where(s));
        }
        SoFarOn(log, goal, data, s0, d, s, skippingPartial);
        data := data + d;
        if turn == Filled || (data != [] && (!multipage || !s.inRecord)) {
          return |data|, data;
        }
      }
      DoneSoFar(log, goal, data, s, skippingPartial);
      return |data|, data;
    }
  }

  /** Between the turns of a read: `data` of the record `goal` has been copied out, and the rest of it is ahead. */
  ghost predicate SoFar(log: Log, goal: Record, data: seq<Byte>, s: Position, partial: bool)
    requires Sound(log, s)
  {
    && (goal != Broken ==> goal == Prepend(data, Ahead(log, s, partial)))
    && (data != [] ==> Delivered(log, goal, data, s, partial))
    && (data != [] && goal != Broken ==> s.inRecord && !s.skipCurrent && goal != Nothing)
  }

  lemma NothingSoFar(log: Log, s: Position, partial: bool)
    requires Sound(log, s)
    ensures SoFar(log, Ahead(log, s, partial), [], s, partial)
  {
    hide InChunk, Ahead;
    PrependNothing(Ahead(log, s, partial));
  }

  lemma EndSoFar(log: Log, goal: Record, data: seq<Byte>, s0: Position, s: Position, partial: bool)
    requires Sound(log, s0) && Sound(log, s) && SoFar(log, goal, data, s0, partial)
    requires Ahead(log, s0, partial) == Ahead(log, s, partial) == if s.inRecord then Broken else Nothing
    ensures !goal.Whole? && (goal.Nothing? ==> !s.inRecord)
  {
    hide InChunk, Ahead;
  }

  lemma BrokenSoFar(log: Log, goal: Record, data: seq<Byte>, s: Position, partial: bool)
    requires Sound(log, s) && SoFar(log, goal, data, s, partial) && Ahead(log, s, partial) == Broken
    ensures goal == Broken
  {
    hide InChunk, Ahead;
  }

  lemma DoneSoFar(log: Log, goal: Record, data: seq<Byte>, s: Position, partial: bool)
    requires Sound(log, s) && SoFar(log, goal, data, s, partial)
    ensures data != [] && goal.Whole? ==> Delivered(log, goal, data, s, partial)
    ensures data != [] ==> goal != Nothing
  {
  }

  /** Another turn: either the read goes on, or it has delivered what it returns. */
  lemma SoFarOn(log: Log, goal: Record, data: seq<Byte>, s0: Position, d: seq<Byte>, s: Position, partial: bool)
    requires Sound(log, s0) && Sound(log, s) && SoFar(log, goal, data, s0, partial)
    requires TurnTaken(log, Ahead(log, s0, partial), d, s, partial)
    requires s0.inRecord && !s0.skipCurrent && Ahead(log, s0, partial) != Broken && d == [] ==> s.inRecord && !s.skipCurrent
    ensures goal != Broken ==> Ahead(log, s0, partial) != Broken
    ensures data + d != [] ==> goal != Nothing && Delivered(log, goal, data + d, s, partial)
    ensures data + d == [] || s.inRecord ==> SoFar(log, goal, data + d, s, partial)
  {
    hide InChunk, Ahead, TurnTaken, Delivered;
    if data != [] && d == [] && goal != Broken {
      assert Ahead(log, s0, partial) != Broken;
    }
    TurnsAddUp(log, goal, data, s0, d, s, partial);
    if d != [] {
      TurnSkipsNothing(log, Ahead(log, s0, partial), d, s, partial);
    }
    assert data == [] && d == [] ==> data + d == [];
  }

  lemma TurnSkipsNothing(log: Log, ahead: Record, d: seq<Byte>, s: Position, partial: bool)
    requires Sound(log, s) && TurnTaken(log, ahead, d, s, partial) && d != []
    ensures !s.skipCurrent
  {
  }
}
