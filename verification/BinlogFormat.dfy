/** The on-disk format of the engine-implemented binlog, and its meaning.

    A log is a set of numbered files, a file is a sequence of pages, and a page
    holds chunks. A chunk is one kind byte, a two-byte length, and data; a record is
    a chain of chunks of one type. This module gives the meaning of a log as records, by
    plain recursion over positions. The readers elsewhere are proved against it.
  */
module BinlogFormat {

  type Byte = b: int | 0 <= b < 256

  const PAGE_SIZE: nat := 16384
  /** Bytes at the end of a page that never hold chunk data: the checksum. */
  const PAGE_DATA_END: nat := 4
  /** The kind byte and the two length bytes of a chunk. */
  const CHUNK_HEADER: nat := 3
  /** From this offset on no chunk fits in a page any more. */
  const PAGE_FULL: nat := PAGE_SIZE - (PAGE_DATA_END + CHUNK_HEADER)

  const TYPE_COMMIT: Byte := 1
  const TYPE_GTID_STATE: Byte := 2
  const TYPE_OOB_DATA: Byte := 3
  const TYPE_DUMMY: Byte := 4
  const FILLER: Byte := 255

  /** The continuation flag, bit 7 of the kind byte. */
  predicate IsCont(kind: Byte) {
    kind >= 128
  }

  /** The last-chunk flag, bit 6 of the kind byte. */
  predicate IsLast(kind: Byte) {
    kind % 128 >= 64
  }

  /** The record type, the low six bits of the kind byte. */
  function RecordType(kind: Byte): Byte {
    kind % 64
  }

  /** Record types whose chunks may appear inside another record. */
  predicate MayNest(t: Byte) {
    t == TYPE_GTID_STATE || t == TYPE_DUMMY
  }

  type PageBytes = b: seq<Byte> | |b| == PAGE_SIZE witness seq(PAGE_SIZE, _ => 0)

  /** A page that fails its checksum or cannot be read is `Unreadable`. */
  datatype Page = Readable(bytes: PageBytes) | Unreadable

  type Log = map<nat, seq<Page>>

  /** The reader multiplies page numbers by the page size in 32 bits. A log that it can
      read has files below 4 GiB. */
  ghost predicate FilesBounded(log: Log) {
    forall f :: f in log ==> PAGE_SIZE * |log[f]| < 0x1_0000_0000
  }

  datatype Pos = Pos(file: nat, page: nat, off: nat)

  /** Position of byte `offset` of file `file`. */
  function PosOf(file: nat, offset: nat): Pos {
    Pos(file, (offset / PAGE_SIZE) % 0x1_0000_0000, offset % PAGE_SIZE)
  }

  // ----- how much of the log lies ahead of a position, for termination -----

  ghost function FilesFrom(log: Log, file: nat): nat {
    |set f | f in log && f >= file|
  }

  lemma FewerFiles(log: Log, f: nat, g: nat)
    requires f in log && f < g
    ensures FilesFrom(log, g) < FilesFrom(log, f)
  {
    var later := set k | k in log && k >= g;
    var all := set k | k in log && k >= f;
    assert later <= all - {f};
    SubsetCard(later, all - {f});
  }

  lemma {:induction false} SubsetCard(a: set<nat>, b: set<nat>)
    requires a <= b
    ensures |a| <= |b|
  {
    if a != {} {
      var x :| x in a;
      SubsetCard(a - {x}, b - {x});
    }
  }

  ghost function PagesFrom(log: Log, p: Pos): nat {
    if p.file in log && p.page < |log[p.file]| then |log[p.file]| - p.page else 0
  }

  ghost function BytesFrom(p: Pos): nat {
    if p.off < PAGE_SIZE then PAGE_SIZE - p.off else 0
  }

  /** `q` lies strictly after `p`, and `p` lies within the log. */
  ghost predicate Before(log: Log, p: Pos, q: Pos) {
    && p.file in log
    && (|| p.file < q.file
        || (p.file == q.file && p.page < q.page && p.page < |log[p.file]|)
        || (p.file == q.file && p.page == q.page && p.off < q.off && p.off < PAGE_SIZE))
  }

  lemma BeforeShrinks(log: Log, p: Pos, q: Pos)
    requires Before(log, p, q)
    ensures p.file != q.file ==> FilesFrom(log, q.file) < FilesFrom(log, p.file)
    ensures p.file == q.file && p.page != q.page ==> PagesFrom(log, q) < PagesFrom(log, p)
    ensures p.file == q.file && p.page == q.page ==>
              PagesFrom(log, q) == PagesFrom(log, p) && BytesFrom(q) < BytesFrom(p)
  {
    if p.file < q.file {
      FewerFiles(log, p.file, q.file);
    }
  }

  // ----- chunks -----

  datatype Lookup =
    | At(at: Pos, kind: Byte, data: seq<Byte>)
    | End              // an empty kind byte, or a missing file: nothing more was written
    | Garbled          // unreadable page, or a length that does not fit its page

  /** The start of the page after `p`, which is in the next file after the last page. Page 0
      of a file is its header. */
  function NextPage(log: Log, p: Pos): Pos
    requires p.file in log
  {
    if p.page + 1 >= |log[p.file]| then Pos(p.file + 1, 1, 0) else Pos(p.file, p.page + 1, 0)
  }

  /** What the page at a readable position says there. */
  function Peek(b: PageBytes, p: Pos): Lookup
    requires p.off < PAGE_FULL
  {
    if b[p.off] == 0 then End
    else
      var len: nat := b[p.off + 1] as int + 256 * (b[p.off + 2] as int);
      if len + CHUNK_HEADER + PAGE_DATA_END > PAGE_SIZE - p.off then Garbled
      else At(p, b[p.off], b[p.off + CHUNK_HEADER..p.off + CHUNK_HEADER + len])
  }

  /** The first chunk at or after `p`, passing over filler, page ends and file ends. */
  ghost function Locate(log: Log, p: Pos): (r: Lookup)
    ensures r.At? ==> r.at == p || Before(log, p, r.at)
    ensures r.At? ==> r.at.file in log && r.at.page < |log[r.at.file]|
    ensures r.At? ==> r.at.off < PAGE_FULL && r.kind != FILLER
    ensures r.At? ==> r.at.off + CHUNK_HEADER + |r.data| + PAGE_DATA_END <= PAGE_SIZE
    ensures r.At? ==> log[r.at.file][r.at.page].Readable? && Peek(log[r.at.file][r.at.page].bytes, r.at) == r
    decreases FilesFrom(log, p.file), PagesFrom(log, p)
  {
    if p.file !in log then End
    else if p.page >= |log[p.file]| then
      BeforeShrinks(log, p, Pos(p.file + 1, 1, p.off));
      Locate(log, Pos(p.file + 1, 1, p.off))
    else
      match log[p.file][p.page]
      case Unreadable => Garbled
      case Readable(b) =>
        if p.off >= PAGE_FULL || b[p.off] == FILLER then
          BeforeShrinks(log, p, NextPage(log, p));
          Locate(log, NextPage(log, p))
        else Peek(b, p)
  }

  /** The position after a chunk of `len` data bytes at `p`: the next page when no further
      chunk fits in this one. */
  function After(log: Log, p: Pos, len: nat): Pos
    requires p.file in log
  {
    var off := p.off + CHUNK_HEADER + len;
    if off >= PAGE_FULL then NextPage(log, p) else Pos(p.file, p.page, off)
  }

  /** No chunk can start at `p` in its file any more. */
  ghost predicate FileExhausted(log: Log, p: Pos) {
    p.file in log && PAGE_SIZE * p.page + p.off + CHUNK_HEADER + PAGE_DATA_END >= PAGE_SIZE * |log[p.file]|
  }

  /** `q` was reached from `p`: a later position, and not past the last page of the same file. */
  ghost predicate Reached(log: Log, p: Pos, q: Pos) {
    Before(log, p, q) && (p.file == q.file ==> !FileExhausted(log, q))
  }

  lemma NextPageReached(log: Log, p: Pos)
    requires p.file in log && p.page < |log[p.file]|
    ensures Reached(log, p, NextPage(log, p))
  {
  }

  /** Steps add up, and each step uses up some of the log. */
  lemma ReachedOn(log: Log, p: Pos, q: Pos, r: Pos)
    requires Reached(log, q, r) && (q == p || Reached(log, p, q))
    ensures Reached(log, p, r)
    ensures q.file != r.file ==> FilesFrom(log, r.file) < FilesFrom(log, q.file)
    ensures q.file == r.file && q.page != r.page ==> PagesFrom(log, r) < PagesFrom(log, q)
    ensures q.file == r.file && q.page == r.page ==>
              PagesFrom(log, r) == PagesFrom(log, q) && BytesFrom(r) < BytesFrom(q)
  {
    BeforeShrinks(log, q, r);
  }

  lemma AfterIsLater(log: Log, p: Pos)
    requires Locate(log, p).At?
    ensures var c := Locate(log, p); var q := After(log, c.at, |c.data|);
            && Before(log, p, q) && Reached(log, p, q) && Reached(log, c.at, q)
            && p.file <= c.at.file <= q.file && q.off < PAGE_FULL
  {
  }

  /** Locating is idempotent: the chunk found is the chunk at the place it was found. */
  lemma LocateAgain(log: Log, p: Pos)
    requires Locate(log, p).At?
    ensures Locate(log, Locate(log, p).at) == Locate(log, p)
  {
  }

  // ----- records -----

  datatype Record =
    | Whole(rtype: Byte, data: seq<Byte>, end: Pos)
    | Nothing
    | Broken

  function Prepend(d: seq<Byte>, r: Record): Record {
    if r.Whole? then r.(data := d + r.data) else r
  }

  /** The rest of a record of type `t` whose next chunk is at or after `p`. Chunks of nested
      records are passed over. */
  ghost function RestOf(log: Log, p: Pos, t: Byte): (r: Record)
    ensures r.Whole? ==> r.rtype == t && |r.data| > 0 && Reached(log, p, r.end) && r.end.off < PAGE_FULL
    ensures !r.Nothing?
    decreases FilesFrom(log, p.file), PagesFrom(log, p), BytesFrom(p)
  {
    match Locate(log, p)
    case End => Broken
    case Garbled => Broken
    case At(q, kind, d) =>
      var next := After(log, q, |d|);
      AfterIsLater(log, p);
      BeforeShrinks(log, p, next);
      if RecordType(kind) != t then
        if MayNest(RecordType(kind)) then RestOf(log, next, t) else Broken
      else if !IsCont(kind) || |d| == 0 then Broken
      else if IsLast(kind) then Whole(t, d, next)
      else Prepend(d, RestOf(log, next, t))
  }

  /** A record that starts with the chunk `c`. */
  ghost function RecordFrom(log: Log, c: Lookup): (r: Record)
    requires c.At? && Locate(log, c.at) == c
    ensures !r.Nothing?
    ensures r.Whole? ==> |r.data| > 0 && Reached(log, c.at, r.end) && r.end.off < PAGE_FULL
    ensures r.Whole? ==> r.rtype == RecordType(c.kind)
  {
    var next := After(log, c.at, |c.data|);
    AfterIsLater(log, c.at);
    if |c.data| == 0 then Broken
    else if IsLast(c.kind) then Whole(RecordType(c.kind), c.data, next)
    else Prepend(c.data, RestOf(log, next, RecordType(c.kind)))
  }

  /** The next record at or after `p`. With `partial`, continuation chunks in front of it are
      passed over: they belong to a record that began before `p`. */
  ghost function NextRecord(log: Log, p: Pos, partial: bool): (r: Record)
    ensures r.Whole? ==> |r.data| > 0 && Reached(log, p, r.end) && r.end.off < PAGE_FULL
    decreases FilesFrom(log, p.file), PagesFrom(log, p), BytesFrom(p)
  {
    match Locate(log, p)
    case End => Nothing
    case Garbled => Broken
    case At(q, kind, d) =>
      LocateAgain(log, p);
      var next := After(log, q, |d|);
      AfterIsLater(log, p);
      BeforeShrinks(log, p, next);
      if !IsCont(kind) then RecordFrom(log, Locate(log, p))
      else if partial then NextRecord(log, next, partial)
      else Broken
  }
}
