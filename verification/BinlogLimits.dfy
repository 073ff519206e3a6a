/** Where the header buffer of the readers shows: commit headers that are too long for it, and bytes that get lost when
    it is emptied into a small buffer.
  */
module BinlogLimits {
  import opened BinlogFormat
  import opened ChunkReading
  import opened OobForest
  import opened OobReading
  import opened EventReading
  import opened OobWriting
  import C = CompressedInt

  // ----- commit headers -----

  /** What a commit record says about one set of out-of-band data. */
  datatype LinkSet = LinkSet(count: nat, first: Addr, last: Addr)

  ghost predicate Fits(l: LinkSet) {
    0 < l.count < C.TWO_TO_THE_64 && Fits64(l.first) && Fits64(l.last)
  }

  function LinkBytes(l: LinkSet): seq<Byte> {
    C.Write(l.count) + WriteAddr(l.first) + WriteAddr(l.last)
  }

  /** The header of a commit record with no out-of-band data, with one set of it, or with two. */
  function CommitBytes(links: seq<LinkSet>): seq<Byte>
    requires |links| <= 2
  {
    if links == [] then C.Write(0)
    else LinkBytes(links[0]) + if |links| == 1 then C.Write(0) else LinkBytes(links[1])
  }

  function HeaderOf(links: seq<LinkSet>): CommitHeader
    requires |links| <= 2
  {
    var len := |CommitBytes(links)|;
    if links == [] then CommitHeader(0, NIL, 0, NIL, len)
    else if |links| == 1 then CommitHeader(links[0].count, links[0].last, 0, NIL, len)
    else CommitHeader(links[0].count, links[0].last, links[1].count, links[1].last, len)
  }

  /** Four integers in a row are read back as two addresses. */
  lemma LinksReadBack(before: seq<Byte>, l: LinkSet, after: seq<Byte>)
    requires Fits(l)
    ensures var b := before + (WriteAddr(l.first) + WriteAddr(l.last)) + after;
      ParseLinks(b, |before|) == Links(l.last, |before| + |WriteAddr(l.first) + WriteAddr(l.last)|)
  {
    hide C.Write, C.Read;
    var f0, f1, l0, l1 := C.Write(l.first.file), C.Write(l.first.offset), C.Write(l.last.file), C.Write(l.last.offset);
    var b := before + (WriteAddr(l.first) + WriteAddr(l.last)) + after;
    assert b == before + f0 + (f1 + l0 + l1 + after);
    C.ReadWrite(before, l.first.file, f1 + l0 + l1 + after);
    assert b == (before + f0) + f1 + (l0 + l1 + after);
    C.ReadWrite(before + f0, l.first.offset, l0 + l1 + after);
    assert b == (before + f0 + f1) + l0 + (l1 + after);
    C.ReadWrite(before + f0 + f1, l.last.file, l1 + after);
    assert b == (before + f0 + f1 + l0) + l1 + after;
    C.ReadWrite(before + f0 + f1 + l0, l.last.offset, after);
  }

  /** A count and two addresses are read back. */
  lemma SetReadsBack(before: seq<Byte>, l: LinkSet, after: seq<Byte>)
    requires Fits(l)
    ensures var b := before + LinkBytes(l) + after;
      && C.Read(b, |before|) == C.Int(l.count, |before| + |C.Write(l.count)|)
      && |before| + |C.Write(l.count)| <= |b|
      && ParseLinks(b, |before| + |C.Write(l.count)|) == Links(l.last, |before| + |LinkBytes(l)|)
  {
    hide C.Write, C.Read, ParseLinks, WriteAddr;
    var n, addrs := C.Write(l.count), WriteAddr(l.first) + WriteAddr(l.last);
    var b := before + LinkBytes(l) + after;
    assert LinkBytes(l) == n + addrs;
    assert b == before + n + (addrs + after);
    C.ReadWrite(before, l.count, addrs + after);
    assert b == (before + n) + addrs + after;
    LinksReadBack(before + n, l, after);
  }

  /** Round trip: whatever follows it, a commit header is parsed back to its counts and last addresses. */
  lemma CommitRoundTrip(links: seq<LinkSet>, payload: seq<Byte>)
    requires |links| <= 2 && forall i :: 0 <= i < |links| ==> Fits(links[i])
    ensures ParseCommit(CommitBytes(links) + payload) == HeaderOf(links)
  {
    hide C.Write, C.Read, ParseLinks, LinkBytes;
    var b := CommitBytes(links) + payload;
    if links == [] {
      assert b == [] + C.Write(0) + payload;
      C.ReadWrite([], 0, payload);
    } else {
      var one := LinkBytes(links[0]);
      var rest := if |links| == 1 then C.Write(0) else LinkBytes(links[1]);
      assert b == [] + one + (rest + payload);
      SetReadsBack([], links[0], rest + payload);
      assert b == one + rest + payload;
      if |links| == 1 {
        C.ReadWrite(one, 0, payload);
      } else {
        SetReadsBack(one, links[1], payload);
      }
    }
  }

  /** The reader, which looks at 45 bytes only, gets the links of a commit record that was written if and only if its
      header is no longer than that. */
  lemma ReadsHeaderExactlyWhen(links: seq<LinkSet>, payload: seq<Byte>)
    requires |links| <= 2 && forall i :: 0 <= i < |links| ==> Fits(links[i])
    ensures ParseCommit(Take(CommitBytes(links) + payload, HEADER_BUFFER)) ==
            if |CommitBytes(links)| <= HEADER_BUFFER then HeaderOf(links) else ShortCommit
  {
    hide CommitBytes, ParseCommit, C.Write;
    CommitRoundTrip(links, payload);
    HeaderFitsExactly(CommitBytes(links) + payload);
  }

  /** A header of 46 bytes, with offsets below 4 GiB, which is complete and is refused by the reader. */
  lemma LongHeaderRefused()
    ensures var at := Addr(0x20_0000, 0x2000_0000);
      var l := LinkSet(0x2000_0000, at, at);
      var b := CommitBytes([l, l]);
      |b| == 46 && ParseCommit(b) == HeaderOf([l, l]) && ParseCommit(Take(b, HEADER_BUFFER)) == ShortCommit
  {
    var at := Addr(0x20_0000, 0x2000_0000);
    var l := LinkSet(0x2000_0000, at, at);
    assert |WriteAddr(at)| == 9 && |LinkBytes(l)| == 23;
    hide LinkBytes, ParseCommit;
    var b := CommitBytes([l, l]);
    CommitRoundTrip([l, l], []);
    ReadsHeaderExactlyWhen([l, l], []);
    assert b + [] == b;
  }

  // ----- bytes that get lost -----

  /** A page with one out-of-band record: five zeros and the data "AB". */
  function SmallPage(): (b: PageBytes)
    ensures |b| == PAGE_SIZE
  {
    [67, 7, 0, 0, 0, 0, 0, 0, 65, 66] + seq(PAGE_SIZE - 10, _ => 0)
  }

  /** A log of one file, whose first page is the header. */
  function SmallLog(): Log {
    map[1 := [Unreadable, Readable(SmallPage())]]
  }

  const SMALL_RECORD: seq<Byte> := [0, 0, 0, 0, 0, 65, 66]

  lemma SmallChunk()
    ensures Locate(SmallLog(), Pos(1, 1, 0)) == At(Pos(1, 1, 0), 67, SMALL_RECORD)
  {
    var page, p := SmallPage(), Pos(1, 1, 0);
    assert page[0] == 67 && page[1] == 7 && page[2] == 0;
    assert page[3..10] == SMALL_RECORD;
    assert Peek(page, p) == At(p, 67, page[3..10]);
  }

  lemma SmallRecord()
    ensures RecordAt(SmallLog(), Addr(1, PAGE_SIZE)).Whole?
    ensures RecordAt(SmallLog(), Addr(1, PAGE_SIZE)).rtype == TYPE_OOB_DATA
    ensures RecordAt(SmallLog(), Addr(1, PAGE_SIZE)).data == SMALL_RECORD
  {
    hide Locate, SmallLog;
    SmallChunk();
    assert PosOf(1, PAGE_SIZE) == Pos(1, 1, 0);
  }

  lemma SmallNode()
    ensures var h, a := HeapOf(SmallLog()), Addr(1, PAGE_SIZE); a in h && h[a] == Node(NIL, NIL, [65, 66])
  {
    hide RecordAt, SmallLog, ParseHeader;
    SmallRecord();
    ZeroHeader();
    assert SMALL_RECORD[5..] == [65, 66];
  }

  /** The traversal of this log has to take two bytes at once. */
  lemma SmallMustTake(s: Position)
    ensures var log, a := SmallLog(), Addr(1, PAGE_SIZE);
      && Finite(HeapOf(log), a, true) && Contents(HeapOf(log), a, true) == Flow([65, 66], Done)
      && MustTake(log, NewEntry(a, true), s) == 2
  {
    var log, a := SmallLog(), Addr(1, PAGE_SIZE);
    SmallNode();
    SmallRecord();
    hide RecordAt, SmallLog, ParseHeader, HeapOf;
    var h := HeapOf(log);
    ContentsAre(h, a, true, Leaf);
    Visit(h, a, true);
  }

  /** Asking for one byte at a time loses the second one: after the first, nothing more comes. */
  method DropsSecondByte() returns (data: seq<Byte>, ghost more: Flow)
    ensures Contents(HeapOf(SmallLog()), Addr(1, PAGE_SIZE), true) == Flow([65, 66], Done)
    ensures data == [65] && more == Flow([], Done)
  {
    hide SmallLog, HeapOf, Contents, MustTake, Finite, FilesBounded;
    SmallLogIsFine();
    var rd := new ChunkReader(SmallLog(), 1);
    var _, taken, rest := TakeOne(rd);
    data, more := taken, rest;
  }

  method TakeOne(rd: ChunkReader) returns (oob: OobReader, data: seq<Byte>, ghost more: Flow)
    requires rd.Valid() && !rd.skippingPartial && rd.log == SmallLog()
    modifies rd
    ensures Contents(HeapOf(SmallLog()), Addr(1, PAGE_SIZE), true) == Flow([65, 66], Done)
    ensures data == [65] && more == Flow([], Done)
  {
    hide SmallLog, HeapOf, Contents, MustTake, Finite, FilesBounded;
    oob := new OobReader();
    SmallMustTake(rd.s);
    oob.StartTraversal(Addr(1, PAGE_SIZE), rd);
    var res, taken, dropped := oob.ReadData(rd, 1);
    data, more := taken, oob.StillToCome(rd);
    TwoBytes(taken, dropped, more.bytes);
  }

  lemma TwoBytes(a: seq<Byte>, b: seq<Byte>, c: seq<Byte>)
    requires a + b + c == [65, 66] && |a| == 1 && b != []
    ensures a == [65] && c == []
  {
    assert (a + b + c)[0] == a[0];
  }

  lemma SmallLogIsFine()
    ensures FilesBounded(SmallLog()) && 1 in SmallLog()
  {
  }

  lemma ZeroHeader()
    ensures ParseHeader([0, 0, 0, 0, 0, 65, 66]) == Header(NIL, NIL, 5)
  {
    var b := [0, 0, 0, 0, 0, 65, 66];
    ReadZero(b, 0);
    ReadZero(b, 1);
    ReadZero(b, 2);
    ReadZero(b, 3);
    ReadZero(b, 4);
  }

  lemma ReadZero(b: seq<Byte>, p: nat)
    requires p < |b| && b[p] == 0
    ensures C.Read(b, p) == C.Int(0, p + 1)
  {
    assert b[p..p + 1] == [0];
    assert C.Value([0]) == 0 + 256 * C.Value([]);
  }
}
