/** The server side that lays records out into chunks, pages and files, and what a reader makes of the result.

    A record is read back by looking at bytes that were written one after the other. What is known of it while it is
    being written is therefore stated for every log that agrees with the present one up to the place of the writer.
  */
module BinlogWriting {
  import opened BinlogFormat

  /** Where the data of a page ends. */
  const PAGE_END: nat := PAGE_SIZE - PAGE_DATA_END
  /** As much as fits a page that holds a single chunk. */
  const PAGE_ROOM: nat := PAGE_END - CHUNK_HEADER
  /** More than any GTID state takes. */
  const STATE_LIMIT: nat := 0x100_0000

  /** The kind byte: the type, and a bit each for a chunk that continues a record and for the last one. */
  function Kind(t: Byte, cont: bool, last: bool): Byte
    requires 0 < t < 63
  {
    t + (if cont then 128 else 0) + (if last then 64 else 0)
  }

  /** A chunk: the kind byte, the low and the high byte of the length, and the data. */
  function Chunk(kind: Byte, d: seq<Byte>): seq<Byte>
    requires |d| < 0x1_0000
  {
    [kind, |d| % 256, |d| / 256] + d
  }

  // ----- places -----

  /** Where the next chunk goes after one of `n` data bytes at `p`. */
  function Next(p: Pos, n: nat): Pos {
    if p.off + CHUNK_HEADER + n == PAGE_END then Pos(p.file, p.page + 1, 0) else Pos(p.file, p.page, p.off + CHUNK_HEADER + n)
  }

  /** Where a reader looks for the next chunk when the writer is at `p`. */
  function ReaderAt(sizes: nat -> nat, p: Pos): Pos {
    if p.page >= sizes(p.file) || (p.off >= PAGE_FULL && p.page + 1 >= sizes(p.file)) then Pos(p.file + 1, 1, 0)
    else if p.off >= PAGE_FULL then Pos(p.file, p.page + 1, 0)
    else p
  }

  /** At `p` or after it. */
  predicate NotBefore(p: Pos, q: Pos) {
    p.file < q.file || (p.file == q.file && (p.page < q.page || (p.page == q.page && p.off <= q.off)))
  }

  // ----- logs that agree up to a place -----

  ghost predicate SameBefore(a: Log, b: Log, p: Pos) {
    && (forall f :: f in a && f < p.file ==> f in b && b[f] == a[f])
    && (p.file in a ==> p.file in b && SamePages(a[p.file], b[p.file], p.page, p.off))
  }

  ghost predicate SamePages(a: seq<Page>, b: seq<Page>, page: nat, off: nat) {
    && |b| == |a|
    && (forall i :: 0 <= i < page && i < |a| ==> b[i] == a[i])
    && (page < |a| && a[page].Readable? && off <= PAGE_SIZE ==>
          b[page].Readable? && b[page].bytes[..off] == a[page].bytes[..off])
  }

  lemma SameSelf(log: Log, p: Pos)
    ensures SameBefore(log, log, p)
  {
  }

  lemma SamePagesOn(a: seq<Page>, b: seq<Page>, c: seq<Page>, page: nat, off: nat, page': nat, off': nat)
    requires SamePages(a, b, page, off) && SamePages(b, c, page', off') && off <= PAGE_SIZE && off' <= PAGE_SIZE
    requires page < page' || (page == page' && off <= off')
    ensures SamePages(a, c, page, off)
  {
    if page < |a| && a[page].Readable? && page == page' {
      assert c[page].bytes[..off] == c[page].bytes[..off'][..off];
      assert b[page].bytes[..off] == b[page].bytes[..off'][..off];
    }
  }

  /** What agrees further on agrees so far. */
  lemma SameOn(a: Log, b: Log, c: Log, p: Pos, q: Pos)
    requires SameBefore(a, b, p) && SameBefore(b, c, q) && NotBefore(p, q) && p.off <= PAGE_SIZE && q.off <= PAGE_SIZE
    ensures SameBefore(a, c, p)
  {
    hide SamePages;
    if p.file in a {
      if p.file == q.file {
        SamePagesOn(a[p.file], b[p.file], c[p.file], p.page, p.off, q.page, q.off);
      }
    }
  }

  // ----- one chunk -----

  /** The chunk is in the page at `p`. */
  ghost predicate Placed(log: Log, p: Pos, kind: Byte, d: seq<Byte>) {
    && 0 < |d| && p.off + CHUNK_HEADER + |d| <= PAGE_END
    && p.file in log && p.page < |log[p.file]| && log[p.file][p.page].Readable?
    && log[p.file][p.page].bytes[p.off..p.off + CHUNK_HEADER + |d|] == Chunk(kind, d)
  }

  /** A chunk that the writer has passed stays where it is. */
  lemma PlacedStays(log: Log, later: Log, p: Pos, kind: Byte, d: seq<Byte>)
    requires Placed(log, p, kind, d) && SameBefore(log, later, Next(p, |d|))
    ensures Placed(later, p, kind, d) && |later[p.file]| == |log[p.file]|
  {
    var b, c := log[p.file][p.page].bytes, later[p.file][p.page].bytes;
    var end := p.off + CHUNK_HEADER + |d|;
    if end < PAGE_END {
      assert c[p.off..end] == c[..end][p.off..];
      assert b[p.off..end] == b[..end][p.off..];
    }
  }

  /** The reader finds the chunk as it was written, and goes on where the writer went on. */
  lemma PlacedIsFound(log: Log, sizes: nat -> nat, p: Pos, kind: Byte, d: seq<Byte>)
    requires Placed(log, p, kind, d) && kind != 0 && kind != FILLER && |log[p.file]| == sizes(p.file)
    ensures Locate(log, p) == At(p, kind, d)
    ensures After(log, p, |d|) == ReaderAt(sizes, Next(p, |d|))
  {
    var b := log[p.file][p.page].bytes;
    var c := b[p.off..p.off + CHUNK_HEADER + |d|];
    assert c[0] == b[p.off] && c[1] == b[p.off + 1] && c[2] == b[p.off + 2];
    assert c[CHUNK_HEADER..] == b[p.off + CHUNK_HEADER..p.off + CHUNK_HEADER + |d|];
    assert Chunk(kind, d)[CHUNK_HEADER..] == d;
  }

  // ----- a record in the making -----

  /** In every log that agrees up to `p`: the record that starts at `start` is `done` and then what follows at `p`. */
  ghost predicate Continues(log: Log, sizes: nat -> nat, p: Pos, start: Pos, t: Byte, done: seq<Byte>) {
    forall later: Log :: SameBefore(log, later, p) && RestOf(later, ReaderAt(sizes, p), t).Whole? ==>
      NextRecord(later, start, false) == Prepend(done, RestOf(later, ReaderAt(sizes, p), t))
  }

  /** In every log that agrees up to `p`: the record that starts at `start` is this one, and ends there. */
  ghost predicate Complete(log: Log, sizes: nat -> nat, p: Pos, start: Pos, t: Byte, data: seq<Byte>) {
    forall later: Log :: SameBefore(log, later, p) ==>
      NextRecord(later, start, false) == Whole(t, data, ReaderAt(sizes, p))
  }

  /** In every log that agrees up to `p`: a record that is interrupted at `start` goes on at `p`. */
  ghost predicate Interrupts(log: Log, sizes: nat -> nat, p: Pos, start: Pos) {
    forall later: Log, t: Byte :: SameBefore(log, later, p) && t != TYPE_GTID_STATE ==>
      RestOf(later, start, t) == RestOf(later, ReaderAt(sizes, p), t)
  }

  lemma KindSays(t: Byte, cont: bool, last: bool)
    requires 0 < t < 63
    ensures var k := Kind(t, cont, last); k != 0 && k != FILLER && RecordType(k) == t && IsCont(k) == cont && IsLast(k) == last
  {
  }

  lemma FoundLater(log: Log, later: Log, sizes: nat -> nat, p: Pos, t: Byte, cont: bool, last: bool, d: seq<Byte>)
    requires 0 < t < 63 && Placed(log, p, Kind(t, cont, last), d) && |log[p.file]| == sizes(p.file)
    requires SameBefore(log, later, Next(p, |d|))
    ensures Locate(later, p) == At(p, Kind(t, cont, last), d) && p.file in later
    ensures After(later, p, |d|) == ReaderAt(sizes, Next(p, |d|))
  {
    hide Locate, After, ReaderAt, SameBefore;
    KindSays(t, cont, last);
    PlacedStays(log, later, p, Kind(t, cont, last), d);
    PlacedIsFound(later, sizes, p, Kind(t, cont, last), d);
  }

  /** The first chunk of a record. */
  lemma FirstChunk(log: Log, sizes: nat -> nat, p: Pos, t: Byte, last: bool, d: seq<Byte>)
    requires 0 < t < 63 && Placed(log, p, Kind(t, false, last), d) && |log[p.file]| == sizes(p.file)
    ensures if last then Complete(log, sizes, Next(p, |d|), p, t, d) else Continues(log, sizes, Next(p, |d|), p, t, d)
  {
    assert |d| > 0;
    hide Locate, After, ReaderAt, SameBefore, Placed;
    KindSays(t, false, last);
    forall later: Log | SameBefore(log, later, Next(p, |d|))
      ensures NextRecord(later, p, false) ==
        if last then Whole(t, d, ReaderAt(sizes, Next(p, |d|)))
        else Prepend(d, RestOf(later, ReaderAt(sizes, Next(p, |d|)), t))
    {
      FoundLater(log, later, sizes, p, t, false, last, d);
    }
  }

  /** What one more chunk of a record, or a chunk of a GTID state inside it, leaves to be read. */
  lemma RestWithChunk(log: Log, later: Log, sizes: nat -> nat, p: Pos, t: Byte, last: bool, d: seq<Byte>)
    requires 0 < t < 63 && Placed(log, p, Kind(t, true, last), d) && |log[p.file]| == sizes(p.file)
    requires SameBefore(log, later, Next(p, |d|))
    ensures RestOf(later, p, t) ==
      if last then Whole(t, d, ReaderAt(sizes, Next(p, |d|)))
      else Prepend(d, RestOf(later, ReaderAt(sizes, Next(p, |d|)), t))
  {
    assert |d| > 0;
    hide Locate, After, ReaderAt, SameBefore, Placed;
    KindSays(t, true, last);
    FoundLater(log, later, sizes, p, t, true, last, d);
  }

  lemma JoinDone(done: seq<Byte>, d: seq<Byte>, r: Record)
    ensures Prepend(done, Prepend(d, r)) == Prepend(done + d, r)
  {
    if r.Whole? {
      assert done + (d + r.data) == done + d + r.data;
    }
  }

  /** One more chunk of a record. */
  lemma NextChunk(log0: Log, log: Log, sizes: nat -> nat, p: Pos, start: Pos, t: Byte, last: bool, done: seq<Byte>, d: seq<Byte>)
    requires 0 < t < 63 && Placed(log, p, Kind(t, true, last), d) && |log[p.file]| == sizes(p.file) && ReaderAt(sizes, p) == p
    requires SameBefore(log0, log, p) && Continues(log0, sizes, p, start, t, done)
    ensures var q := Next(p, |d|);
      if last then Complete(log, sizes, q, start, t, done + d) else Continues(log, sizes, q, start, t, done + d)
  {
    var q := Next(p, |d|);
    assert q.off <= PAGE_SIZE && NotBefore(p, q);
    hide Locate, After, ReaderAt, SameBefore, RestOf, NextRecord, Next;
    forall later: Log | SameBefore(log, later, q)
      ensures last ==> NextRecord(later, start, false) == Whole(t, done + d, ReaderAt(sizes, q))
      ensures !last && RestOf(later, ReaderAt(sizes, q), t).Whole? ==>
        NextRecord(later, start, false) == Prepend(done + d, RestOf(later, ReaderAt(sizes, q), t))
    {
      SameOn(log0, log, later, p, q);
      RestWithChunk(log, later, sizes, p, t, last, d);
      JoinDone(done, d, RestOf(later, ReaderAt(sizes, q), t));
    }
  }

  /** A chunk of a GTID state is passed over by whoever reads another record. */
  lemma StateChunk(log0: Log, log: Log, sizes: nat -> nat, p: Pos, start: Pos, cont: bool, last: bool, d: seq<Byte>)
    requires Placed(log, p, Kind(TYPE_GTID_STATE, cont, last), d) && |log[p.file]| == sizes(p.file) && ReaderAt(sizes, p) == p
    requires SameBefore(log0, log, p) && Interrupts(log0, sizes, p, start)
    ensures Interrupts(log, sizes, Next(p, |d|), start)
  {
    var q := Next(p, |d|);
    assert q.off <= PAGE_SIZE && NotBefore(p, q);
    KindSays(TYPE_GTID_STATE, cont, last);
    hide Locate, After, ReaderAt, SameBefore, Next, Placed;
    forall later: Log, t: Byte | SameBefore(log, later, q) && t != TYPE_GTID_STATE
      ensures RestOf(later, start, t) == RestOf(later, ReaderAt(sizes, q), t)
    {
      SameOn(log0, log, later, p, q);
      FoundLater(log, later, sizes, p, TYPE_GTID_STATE, cont, last, d);
    }
  }

  /** Nothing was written in between. */
  lemma StillContinues(log0: Log, log: Log, sizes: nat -> nat, p: Pos, q: Pos, start: Pos, t: Byte, done: seq<Byte>)
    requires SameBefore(log0, log, p) && NotBefore(p, q) && p.off <= PAGE_SIZE && q.off <= PAGE_SIZE
    requires ReaderAt(sizes, p) == ReaderAt(sizes, q) && Continues(log0, sizes, p, start, t, done)
    ensures Continues(log, sizes, q, start, t, done)
  {
    hide ReaderAt, SameBefore, RestOf, NextRecord;
    forall later: Log | SameBefore(log, later, q) && RestOf(later, ReaderAt(sizes, q), t).Whole?
      ensures NextRecord(later, start, false) == Prepend(done, RestOf(later, ReaderAt(sizes, q), t))
    {
      SameOn(log0, log, later, p, q);
    }
  }

  /** A GTID state was written in between. */
  lemma ContinuesAfterState(log0: Log, log: Log, sizes: nat -> nat, p: Pos, q: Pos, start: Pos, t: Byte, done: seq<Byte>)
    requires SameBefore(log0, log, p) && NotBefore(p, q) && p.off <= PAGE_SIZE && q.off <= PAGE_SIZE && ReaderAt(sizes, p) == p
    requires Continues(log0, sizes, p, start, t, done) && Interrupts(log, sizes, q, p) && t != TYPE_GTID_STATE
    ensures Continues(log, sizes, q, start, t, done)
  {
    hide ReaderAt, SameBefore, RestOf, NextRecord;
    forall later: Log | SameBefore(log, later, q) && RestOf(later, ReaderAt(sizes, q), t).Whole?
      ensures NextRecord(later, start, false) == Prepend(done, RestOf(later, ReaderAt(sizes, q), t))
    {
      SameOn(log0, log, later, p, q);
    }
  }

  // ----- the records of a log -----

  datatype Item = Item(rtype: Byte, data: seq<Byte>)

  /** Reading record after record from `p` gives these, and leads to `e`. */
  ghost predicate Reads(log: Log, p: Pos, items: seq<Item>, e: Pos)
    decreases |items|
  {
    if items == [] then p == e
    else
      var r := NextRecord(log, p, false);
      r.Whole? && r.rtype == items[0].rtype && r.data == items[0].data && Reads(log, r.end, items[1..], e)
  }

  /** In every log that agrees up to `p`: the records from `first` on are these, and then those from `p` on. */
  ghost predicate Holds(log: Log, sizes: nat -> nat, p: Pos, first: Pos, items: seq<Item>) {
    forall later: Log, more: seq<Item>, e: Pos :: SameBefore(log, later, p) && Reads(later, ReaderAt(sizes, p), more, e) ==>
      Reads(later, first, items + more, e)
  }

  lemma HoldsNothing(log: Log, sizes: nat -> nat, p: Pos)
    requires ReaderAt(sizes, p) == p
    ensures Holds(log, sizes, p, p, [])
  {
    hide Reads, SameBefore;
    forall later: Log, more: seq<Item>, e: Pos | SameBefore(log, later, p) && Reads(later, ReaderAt(sizes, p), more, e)
      ensures Reads(later, p, [] + more, e)
    {
      assert [] + more == more;
    }
  }

  /** A complete record more. */
  lemma HoldsOneMore(log0: Log, log: Log, sizes: nat -> nat, p: Pos, q: Pos, first: Pos, items: seq<Item>, i: Item)
    requires SameBefore(log0, log, p) && NotBefore(p, q) && p.off <= PAGE_SIZE && q.off <= PAGE_SIZE
    requires Holds(log0, sizes, p, first, items) && Complete(log, sizes, q, ReaderAt(sizes, p), i.rtype, i.data)
    ensures Holds(log, sizes, q, first, items + [i])
  {
    hide SameBefore, ReaderAt, NextRecord;
    forall later: Log, more: seq<Item>, e: Pos | SameBefore(log, later, q) && Reads(later, ReaderAt(sizes, q), more, e)
      ensures Reads(later, first, items + [i] + more, e)
    {
      SameOn(log0, log, later, p, q);
      assert ([i] + more)[1..] == more;
      assert Reads(later, ReaderAt(sizes, p), [i] + more, e);
      assert items + [i] + more == items + ([i] + more);
    }
  }

  lemma StillHolds(log0: Log, log: Log, sizes: nat -> nat, p: Pos, q: Pos, first: Pos, items: seq<Item>)
    requires SameBefore(log0, log, p) && NotBefore(p, q) && p.off <= PAGE_SIZE && q.off <= PAGE_SIZE
    requires ReaderAt(sizes, p) == ReaderAt(sizes, q) && Holds(log0, sizes, p, first, items)
    ensures Holds(log, sizes, q, first, items)
  {
    hide SameBefore, ReaderAt, Reads;
    forall later: Log, more: seq<Item>, e: Pos | SameBefore(log, later, q) && Reads(later, ReaderAt(sizes, q), more, e)
      ensures Reads(later, first, items + more, e)
    {
      SameOn(log0, log, later, p, q);
    }
  }

  // ----- the writer -----

  /** Every page but the header can be read, and from the place of the writer on nothing is written. */
  ghost predicate Shape(log: Log, sizes: nat -> nat, p: Pos) {
    && p.file in log && 1 <= p.page <= sizes(p.file) && p.off < PAGE_END && (p.page == sizes(p.file) ==> p.off == 0)
    && (forall f :: f in log ==> f <= p.file && |log[f]| == sizes(f) && AllReadable(log[f]))
    && Blank(log[p.file], p.page, p.off)
  }

  ghost predicate AllReadable(pages: seq<Page>) {
    forall i :: 1 <= i < |pages| ==> pages[i].Readable?
  }

  ghost predicate Blank(pages: seq<Page>, page: nat, off: nat) {
    forall i :: page <= i < |pages| && pages[i].Readable? ==> ZeroFrom(pages[i].bytes, if i == page then off else 0)
  }

  ghost predicate ZeroFrom(b: PageBytes, off: nat) {
    forall j :: off <= j < PAGE_SIZE ==> b[j] == 0
  }

  /** Nothing more is there to be read. */
  lemma BlankIsEnd(log: Log, sizes: nat -> nat, p: Pos)
    requires Shape(log, sizes, p) && sizes(p.file) >= 2
    ensures NextRecord(log, ReaderAt(sizes, p), false) == Nothing
  {
    var q := ReaderAt(sizes, p);
    if q.file == p.file {
      assert log[q.file][q.page].Readable?;
      assert ZeroFrom(log[q.file][q.page].bytes, if q.page == p.page then p.off else 0);
    }
  }

  function Over(b: PageBytes, off: nat, bs: seq<Byte>): PageBytes
    requires off + |bs| <= PAGE_SIZE
  {
    b[..off] + bs + b[off + |bs|..]
  }

  /** The log with `bs` written at `p`. */
  function Put(log: Log, p: Pos, bs: seq<Byte>): Log
    requires p.file in log && p.page < |log[p.file]| && log[p.file][p.page].Readable? && p.off + |bs| <= PAGE_SIZE
  {
    log[p.file := log[p.file][p.page := Readable(Over(log[p.file][p.page].bytes, p.off, bs))]]
  }

  lemma PutKeeps(log: Log, sizes: nat -> nat, p: Pos, bs: seq<Byte>, q: Pos)
    requires Shape(log, sizes, p) && p.page < sizes(p.file) && p.off + |bs| <= PAGE_END
    requires q.file == p.file && q.off < PAGE_END
    requires if p.off + |bs| == PAGE_END then q.page == p.page + 1 && q.off == 0 else q.page == p.page && q.off == p.off + |bs|
    ensures Shape(Put(log, p, bs), sizes, q) && SameBefore(log, Put(log, p, bs), p)
    ensures Put(log, p, bs)[p.file][p.page].bytes[p.off..p.off + |bs|] == bs
  {
    var b := log[p.file][p.page].bytes;
    var b' := Over(b, p.off, bs);
    assert b'[..p.off] == b[..p.off];
    assert b'[p.off..p.off + |bs|] == bs;
    assert ZeroFrom(b, p.off);
    assert p.off + |bs| < PAGE_END ==> ZeroFrom(b', p.off + |bs|);
  }

  function ZeroPages(n: nat): (pages: seq<Page>)
    ensures |pages| == n && forall i :: 1 <= i < n ==> pages[i].Readable? && ZeroFrom(pages[i].bytes, 0)
  {
    seq(n, i => if i == 0 then Unreadable else Readable(seq(PAGE_SIZE, _ => 0)))
  }

  /** Going on in a new file. */
  lemma NewFileKeeps(log: Log, sizes: nat -> nat, p: Pos)
    requires Shape(log, sizes, p) && p.page == sizes(p.file) && sizes(p.file + 1) >= 2
    ensures var q := Pos(p.file + 1, 1, 0); var log' := log[p.file + 1 := ZeroPages(sizes(p.file + 1))];
      && Shape(log', sizes, q) && SameBefore(log, log', p) && NotBefore(p, q) && ReaderAt(sizes, p) == ReaderAt(sizes, q)
  {
  }

  /** The pages that the writer reckons a GTID state of `n` bytes to take. */
  function Needed(n: nat): nat {
    (n + PAGE_END - 1) / PAGE_END
  }

  /** That reckoning does not count the chunk headers, but leaves enough pages. */
  lemma EnoughPages(n: nat, full: nat)
    requires full * PAGE_ROOM < n < STATE_LIMIT
    ensures full <= Needed(n)
    ensures n - full * PAGE_ROOM <= PAGE_ROOM && n - full * PAGE_ROOM + 7 > PAGE_ROOM ==> full + 1 <= Needed(n)
  {
  }

  class BinlogWriter {
    const sizes: nat -> nat                     // the number of pages of each file
    const state: (nat, nat) -> seq<Byte>        // the GTID state that is due at the start of a page, if any
    ghost const first: Pos
    var log: Log
    var file: nat
    var page: nat
    var off: nat
    ghost var items: seq<Item>                  // the records from the first page on

    ghost function Place(): Pos
      reads this
    {
      Pos(file, page, off)
    }

    ghost predicate Settings() {
      (forall f :: sizes(f) >= 2) && forall f, p :: |state(f, p)| < STATE_LIMIT
    }

    ghost predicate Valid()
      reads this
    {
      Settings() && Shape(log, sizes, Place()) && Holds(log, sizes, Place(), first, items)
    }

    /** A first file without records. */
    constructor (file: nat, sizes: nat -> nat, state: (nat, nat) -> seq<Byte>)
      requires (forall f :: sizes(f) >= 2) && forall f, p :: |state(f, p)| < STATE_LIMIT
      ensures Valid() && first == Pos(file, 1, 0) && items == [] && this.sizes == sizes && log.Keys == {file}
    {
      this.sizes, this.state, this.file := sizes, state, file;
      log, page, off := map[file := ZeroPages(sizes(file))], 1, 0;
      first, items := Pos(file, 1, 0), [];
      new;
      HoldsNothing(log, sizes, Place());
    }

    /** Writes a chunk and goes on behind it, in the next page if this one is full. */
    method PutChunk(t: Byte, cont: bool, last: bool, d: seq<Byte>)
      requires Shape(log, sizes, Place()) && page < sizes(file) && 0 < t < 63
      requires 0 < |d| && off + CHUNK_HEADER + |d| <= PAGE_END
      modifies `log, `page, `off
      ensures Shape(log, sizes, Place()) && SameBefore(old(log), log, old(Place()))
      ensures Placed(log, old(Place()), Kind(t, cont, last), d) && Place() == Next(old(Place()), |d|)
      ensures |log[file]| == sizes(file)
    {
      hide Blank, SameBefore;
      PutKeeps(log, sizes, Place(), Chunk(Kind(t, cont, last), d), Next(Place(), |d|));
      ghost var p := Place();
      log := Put(log, Pos(file, page, off), Chunk(Kind(t, cont, last), d));
      off := off + CHUNK_HEADER + |d|;
      if off == PAGE_END {
        page, off := page + 1, 0;
      }
    }

    /** Writes a GTID state at the start of a page, over as many pages as it takes. */
    method WriteState(s: seq<Byte>)
      requires Settings() && Shape(log, sizes, Place()) && off == 0 && s != [] && |s| < STATE_LIMIT
      requires page + Needed(|s|) < sizes(file)
      modifies `log, `page, `off
      ensures Shape(log, sizes, Place()) && SameBefore(old(log), log, old(Place())) && NotBefore(old(Place()), Place())
      ensures Complete(log, sizes, Place(), old(Place()), TYPE_GTID_STATE, s)
      ensures Interrupts(log, sizes, Place(), old(Place()))
      ensures page < sizes(file) && (PAGE_END - off < 4 ==> page + 1 < sizes(file))
    {
      hide Shape, SameBefore, Complete, Continues, Interrupts, Placed;
      ghost var p0, log0 := Place(), log;
      var used := 0;
      SameSelf(log, p0);
      NotYetInterrupted(log, sizes, p0);
      while used < |s|
        invariant Shape(log, sizes, Place()) && SameBefore(log0, log, p0) && NotBefore(p0, Place()) && off < PAGE_END
        invariant used <= |s| && file == p0.file
        invariant used < |s| ==> off == 0 && used == (page - p0.page) * PAGE_ROOM
        invariant used == |s| ==> page < sizes(file) && (PAGE_END - off < 4 ==> page + 1 < sizes(file))
        invariant Interrupts(log, sizes, Place(), p0)
        invariant 0 < used < |s| ==> Continues(log, sizes, Place(), p0, TYPE_GTID_STATE, s[..used])
        invariant used == |s| ==> Complete(log, sizes, Place(), p0, TYPE_GTID_STATE, s)
      {
        EnoughPages(|s|, page - p0.page);
        var chunk := |s| - used;
        var last := true;
        if chunk > PAGE_ROOM {
          chunk, last := PAGE_ROOM, false;
        }
        ghost var p, before := Place(), log;
        assert ReaderAt(sizes, p) == p;
        var d := s[used..used + chunk];
        PutChunk(TYPE_GTID_STATE, used > 0, last, d);
        SameOn(log0, before, log, p0, p);
        StateChunk(before, log, sizes, p, p0, used > 0, last, d);
        assert s[..used] + d == s[..used + chunk] && s[..|s|] == s;
        if used == 0 {
          FirstChunk(log, sizes, p, TYPE_GTID_STATE, last, d);
        } else {
          NextChunk(before, log, sizes, p, p0, TYPE_GTID_STATE, last, s[..used], d);
        }
        used := used + chunk;
      }
    }

    /** What a record that has been begun, or the records so far, are known to be. */
    ghost predicate Pending(begun: bool, start: Pos, t: Byte, done: seq<Byte>)
      reads this
    {
      if begun then Continues(log, sizes, Place(), start, t, done) else Holds(log, sizes, Place(), first, items)
    }

    /** On to the next file after the last page, and a GTID state at the start of a page where one is due and leaves
        room for other records. */
    method BeginPage(ghost begun: bool, ghost start: Pos, ghost t: Byte, ghost done: seq<Byte>) returns (ghost states: seq<seq<Byte>>)
      requires Settings() && Shape(log, sizes, Place()) && off == 0 && t != TYPE_GTID_STATE && Pending(begun, start, t, done)
      modifies this
      ensures Shape(log, sizes, Place()) && Pending(begun, start, t, done)
      ensures SameBefore(old(log), log, old(Place())) && NotBefore(old(Place()), Place())
      ensures items == old(items) + if begun then [] else StateItems(states)
      ensures page < sizes(file) && (PAGE_END - off < 4 ==> page + 1 < sizes(file))
      ensures if old(page) < sizes(old(file)) then file == old(file) && page >= old(page) else file == old(file) + 1
    {
      hide SameBefore, Continues, Holds, Interrupts, Complete, Blank, AllReadable;
      ghost var log0, p0 := log, Place();
      SameSelf(log, p0);
      if page >= sizes(file) {
        NewFileKeeps(log, sizes, p0);
        log := log[file + 1 := ZeroPages(sizes(file + 1))];
        file, page := file + 1, 1;
        Still(log0, p0, begun, start, t, done);
      }
      states := [];
      var s := state(file, page);
      assert items + [] == items;
      if s != [] && page + Needed(|s|) < sizes(file) {
        ghost var log1, p1 := log, Place();
        WriteState(s);
        SameOn(log0, log1, log, p0, p1);
        states := [s];
        if begun {
          ContinuesAfterState(log1, log, sizes, p1, Place(), start, t, done);
        } else {
          HoldsOneMore(log1, log, sizes, p1, Place(), first, items, Item(TYPE_GTID_STATE, s));
          OneState(s);
          items := items + [Item(TYPE_GTID_STATE, s)];
        }
      }
    }

    /** Makes room for a chunk; `ready` when there is some. Otherwise the rest of the page is filled up. */
    method Prepare(ghost begun: bool, ghost start: Pos, ghost t: Byte, ghost done: seq<Byte>)
      returns (ready: bool, ghost states: seq<seq<Byte>>)
      requires Settings() && Shape(log, sizes, Place()) && t != TYPE_GTID_STATE && Pending(begun, start, t, done)
      modifies this
      ensures Shape(log, sizes, Place()) && Pending(begun, start, t, done)
      ensures SameBefore(old(log), log, old(Place())) && NotBefore(old(Place()), Place())
      ensures items == old(items) + if begun then [] else StateItems(states)
      ensures page <= sizes(file) && off <= PAGE_SIZE && (ready ==> page < sizes(file) && off + 4 <= PAGE_END)
      ensures !ready ==> off == 0 && (old(off) == 0 ==> page < sizes(file))
      ensures !ready && (old(off) > 0 || old(page) < sizes(old(file))) ==> file == old(file) && page > old(page)
    {
      hide SameBefore, Continues, Holds, Blank, AllReadable;
      SameSelf(log, Place());
      states := [];
      assert items + [] == items;
      if off == 0 {
        states := BeginPage(begun, start, t, done);
      }
      var remain := PAGE_END - off;
      if remain >= 4 {
        return true, states;
      }
      ghost var log1, p1 := log, Place();
      FillPage();
      SameOn(old(log), log1, log, old(Place()), p1);
      Still(log1, p1, begun, start, t, done);
      return false, states;
    }

    /** Fills up the rest of a page that has no room for a chunk. */
    method FillPage()
      requires Shape(log, sizes, Place()) && page < sizes(file) && PAGE_END - off < 4
      modifies `log, `page, `off
      ensures Shape(log, sizes, Place()) && SameBefore(old(log), log, old(Place()))
      ensures page == old(page) + 1 && off == 0 && ReaderAt(sizes, Place()) == ReaderAt(sizes, old(Place()))
    {
      hide Blank, SameBefore;
      var filler := seq(PAGE_END - off, _ => FILLER);
      PutKeeps(log, sizes, Place(), filler, Pos(file, page + 1, 0));
      log := Put(log, Pos(file, page, off), filler);
      page, off := page + 1, 0;
    }

    /** Writes as much of a record as fits the page, and tells whether that was all of it. */
    method PutPart(t: Byte, data: seq<Byte>, done: nat, start: Pos) returns (size: nat, last: bool)
      requires Shape(log, sizes, Place()) && page < sizes(file) && off + 4 <= PAGE_END && 0 < t < 63 && done < |data|
      requires if done == 0 then start == Place() else Continues(log, sizes, Place(), start, t, data[..done])
      modifies `log, `page, `off
      ensures Shape(log, sizes, Place()) && SameBefore(old(log), log, old(Place())) && NotBefore(old(Place()), Place())
      ensures page <= sizes(file) && off <= PAGE_SIZE
      ensures 0 < size && if last then done + size == |data| else done + size < |data|
      ensures if last then Complete(log, sizes, Place(), start, t, data)
              else Continues(log, sizes, Place(), start, t, data[..done + size])
    {
      hide SameBefore, Continues, Complete, Blank, AllReadable, Placed;
      var remain := PAGE_END - off - CHUNK_HEADER;
      size := if remain < |data| - done then remain else |data| - done;
      last := size == |data| - done;
      var d := data[done..done + size];
      ghost var before, p := log, Place();
      assert ReaderAt(sizes, p) == p;
      PutChunk(t, done > 0, last, d);
      assert data[..done] + d == data[..done + size] && data[..|data|] == data;
      if done == 0 {
        assert data[..size] == d;
        FirstChunk(log, sizes, p, t, last, d);
      } else {
        NextChunk(before, log, sizes, p, start, t, last, data[..done], d);
      }
    }

    /** Writes a record, in chunks of whatever size fits. It is read back from `start` as what was written, and so
        are all the records before it; GTID states may have been written in front of it and inside it. */
    method WriteRec(t: Byte, data: seq<Byte>) returns (start: Pos, ghost states: seq<seq<Byte>>)
      requires Valid() && 0 < t < 63 && t != TYPE_GTID_STATE && data != []
      modifies this
      ensures Valid() && SameBefore(old(log), log, old(Place())) && NotBefore(old(Place()), Place())
      ensures NextRecord(log, start, false) == Whole(t, data, ReaderAt(sizes, Place()))
      ensures items == old(items) + StateItems(states) + [Item(t, data)]
    {
      hide SameBefore, Continues, Holds, Shape, Complete, NextRecord, NotBefore, ReaderAt, StateItems;
      ghost var log0, p0 := log, Place();
      ghost var base := log;
      assert page <= sizes(file) && off <= PAGE_SIZE by {
        InPage();
      }
      NowhereElse(log, p0);
      states, start := [], Pos(file, page, off);
      NoStates(items);
      var done := 0;
      while true
        invariant Settings() && Shape(log, sizes, Place()) && done < |data| && page <= sizes(file)
        invariant Pending(done > 0, start, t, data[..done])
        invariant Onward(log0, p0) && items == old(items) + StateItems(states)
        invariant done > 0 ==> Holds(base, sizes, start, first, items) && Onward(base, start) && ReaderAt(sizes, start) == start
        decreases |data| - done, if page == sizes(file) || off > 0 then 1 else 0, sizes(file) - page
      {
        ghost var log1, p1, items1 := log, Place(), items;
        ghost var more;
        var ready;
        ready, more := Prepare(done > 0, start, t, data[..done]);
        GoneOn(log0, p0, log1, p1);
        if done > 0 {
          GoneOn(base, start, log1, p1);
          assert items1 + [] == items1;
        } else {
          AddStates(old(items), states, more);
          states := states + more;
        }
        if ready {
          log1, p1 := log, Place();
          if done == 0 {
            start, base := Pos(file, page, off), log;
            HasRoom(sizes, start);
            NowhereElse(log, start);
          }
          var size, last := PutPart(t, data, done, start);
          GoneOn(log0, p0, log1, p1);
          GoneOn(base, start, log1, p1);
          done := done + size;
          if last {
            HoldsOneMore(base, log, sizes, start, Place(), first, items, Item(t, data));
            items := items + [Item(t, data)];
            ReadNow(log, sizes, Place(), start, t, data);
            return;
          }
        }
      }
    }

    /** Reading from the first page on gives the records in the order in which they were written, and then nothing. */
    lemma ReadsBack()
      requires Valid()
      ensures Reads(log, first, items, ReaderAt(sizes, Place()))
      ensures NextRecord(log, ReaderAt(sizes, Place()), false) == Nothing
    {
      hide NextRecord, ReaderAt, Shape;
      SameSelf(log, Place());
      assert Reads(log, ReaderAt(sizes, Place()), [], ReaderAt(sizes, Place()));
      assert items + [] == items;
      BlankIsEnd(log, sizes, Place());
    }

    /** What was in the log up to `p` is still there, and the writer is at `p` or behind it. */
    ghost predicate Onward(log0: Log, p: Pos)
      reads this
    {
      SameBefore(log0, log, p) && NotBefore(p, Place()) && p.off <= PAGE_SIZE && off <= PAGE_SIZE
    }

    lemma InPage()
      requires Shape(log, sizes, Place())
      ensures page <= sizes(file) && off < PAGE_END
    {
    }

    lemma NowhereElse(log0: Log, p: Pos)
      requires log0 == log && p == Place() && off <= PAGE_SIZE
      ensures Onward(log0, p)
    {
      SameSelf(log, p);
    }

    lemma GoneOn(log0: Log, p: Pos, log1: Log, q: Pos)
      requires SameBefore(log0, log1, p) && NotBefore(p, q) && p.off <= PAGE_SIZE && Onward(log1, q)
      ensures Onward(log0, p)
    {
      hide SameBefore;
      SameOn(log0, log1, log, p, q);
    }

    lemma Still(log0: Log, p0: Pos, begun: bool, start: Pos, t: Byte, done: seq<Byte>)
      requires if begun then Continues(log0, sizes, p0, start, t, done) else Holds(log0, sizes, p0, first, items)
      requires SameBefore(log0, log, p0) && NotBefore(p0, Place()) && p0.off <= PAGE_SIZE && off <= PAGE_SIZE
      requires ReaderAt(sizes, p0) == ReaderAt(sizes, Place())
      ensures Pending(begun, start, t, done)
    {
      if begun {
        StillContinues(log0, log, sizes, p0, Place(), start, t, done);
      } else {
        StillHolds(log0, log, sizes, p0, Place(), first, items);
      }
    }
  }

  /** Records of GTID states. */
  function StateItems(states: seq<seq<Byte>>): seq<Item> {
    if states == [] then [] else [Item(TYPE_GTID_STATE, states[0])] + StateItems(states[1..])
  }

  lemma OneState(s: seq<Byte>)
    ensures StateItems([s]) == [Item(TYPE_GTID_STATE, s)]
  {
    var rest := [s][1..];
    assert StateItems(rest) == [];
  }

  lemma NoStates(items: seq<Item>)
    ensures items + StateItems([]) == items
  {
  }

  lemma AddStates(items: seq<Item>, a: seq<seq<Byte>>, b: seq<seq<Byte>>)
    ensures items + StateItems(a) + StateItems(b) == items + StateItems(a + b)
  {
    MoreStates(a, b);
  }

  lemma {:induction false} MoreStates(a: seq<seq<Byte>>, b: seq<seq<Byte>>)
    ensures StateItems(a + b) == StateItems(a) + StateItems(b)
  {
    if a == [] {
      assert a + b == b;
    } else {
      MoreStates(a[1..], b);
      assert (a + b)[1..] == a[1..] + b;
    }
  }

  lemma ReadNow(log: Log, sizes: nat -> nat, p: Pos, start: Pos, t: Byte, data: seq<Byte>)
    requires Complete(log, sizes, p, start, t, data)
    ensures NextRecord(log, start, false) == Whole(t, data, ReaderAt(sizes, p))
  {
    SameSelf(log, p);
  }

  lemma HasRoom(sizes: nat -> nat, p: Pos)
    requires p.page < sizes(p.file) && p.off + 4 <= PAGE_END
    ensures ReaderAt(sizes, p) == p
  {
  }

  lemma NotYetInterrupted(log: Log, sizes: nat -> nat, p: Pos)
    requires p.page < sizes(p.file) && p.off == 0
    ensures Interrupts(log, sizes, p, p)
  {
  }
}
