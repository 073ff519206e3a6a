/** From the transactions that the server writes to the output of the reader. */
module BinlogRoundTrip {
  import opened BinlogFormat
  import opened OobForest
  import opened OobReading
  import opened EventReading
  import opened BinlogRuns
  import opened OobWriting
  import opened BinlogLimits

  /** A set of out-of-band data, and the links to it. */
  datatype Stored = Stored(links: LinkSet, bytes: seq<Byte>)

  /** The data in the commit record of a transaction, and its out-of-band data. */
  datatype Transaction = Transaction(payload: seq<Byte>, oob: seq<Stored>)

  function LinksOf(oob: seq<Stored>): (links: seq<LinkSet>)
    ensures |links| == |oob| && forall i :: 0 <= i < |oob| ==> links[i] == oob[i].links
  {
    seq(|oob|, i requires 0 <= i < |oob| => oob[i].links)
  }

  function BytesOf(oob: seq<Stored>): seq<Byte> {
    if oob == [] then [] else oob[0].bytes + BytesOf(oob[1..])
  }

  /** What a reader is to make of a transaction. */
  function Output(t: Transaction): seq<Byte> {
    t.payload + BytesOf(t.oob)
  }

  function AllOutput(ts: seq<Transaction>): seq<Byte> {
    if ts == [] then [] else Output(ts[0]) + AllOutput(ts[1..])
  }

  /** The links lead to the data. */
  ghost predicate LeadsToData(log: Log, d: Stored) {
    Fits(d.links) && Contents(HeapOf(log), d.links.last, true) == Flow(d.bytes, Done)
  }

  /** `data` is the commit record of the transaction, with a header that the reader accepts, and the log holds the
      data that it links to. */
  ghost predicate Committed(log: Log, t: Transaction, data: seq<Byte>) {
    && |t.oob| <= 2 && (forall i :: 0 <= i < |t.oob| ==> LeadsToData(log, t.oob[i]))
    && |CommitBytes(LinksOf(t.oob))| <= HEADER_BUFFER && data == CommitBytes(LinksOf(t.oob)) + t.payload
  }

  /** What the writer appended for a transaction is led to by the links to its last root, in any log that holds it. */
  lemma WriterLeadsToData(ctx: OobContext, first: Addr, log: Log)
    requires ctx.Valid() && ctx.nodes != [] && Extends(ctx.heap, HeapOf(log))
    requires var root := ctx.nodes[|ctx.nodes| - 1]; Fits(LinkSet(root.index + 1, first, root.at))
    ensures var root := ctx.nodes[|ctx.nodes| - 1];
      LeadsToData(log, Stored(LinkSet(root.index + 1, first, root.at), Join(ctx.pieces)))
  {
    hide OobContext.Valid, Contents, HeapOf, Join;
    ctx.ReadsBackFromLog(log);
  }

  /** A commit record stands for its payload and then the data of its sets, in order. */
  lemma CommitReadsBack(log: Log, t: Transaction, data: seq<Byte>)
    requires Committed(log, t, data)
    ensures Group(log, data) == Flow(Output(t), Done)
  {
    hide CommitBytes, ParseCommit, Contents, HeapOf;
    var links := LinksOf(t.oob);
    assert forall i :: 0 <= i < |links| ==> Fits(links[i]) by {
      assert forall i :: 0 <= i < |t.oob| ==> LeadsToData(log, t.oob[i]);
    }
    CommitRoundTrip(links, t.payload);
    var h := HeaderOf(links);
    assert data[h.len..] == t.payload;
    SetsInOrder(log, t.oob);
  }

  lemma SetsInOrder(log: Log, oob: seq<Stored>)
    requires |oob| <= 2 && forall i :: 0 <= i < |oob| ==> LeadsToData(log, oob[i])
    ensures var h := HeaderOf(LinksOf(oob));
      Oob(log, h.count, h.last).Then(Oob(log, h.count2, h.last2)) == Flow(BytesOf(oob), Done)
  {
    hide CommitBytes, Contents, HeapOf;
    if |oob| > 0 {
      assert LeadsToData(log, oob[0]);
      if |oob| > 1 {
        assert LeadsToData(log, oob[1]);
        assert oob[1..][1..] == [] && oob[1..][0] == oob[1];
        assert BytesOf(oob[1..]) == oob[1].bytes + [];
      } else {
        assert oob[1..] == [];
      }
    }
  }

  /** From `p` on, file `start` has the commit records of `ts` in this order, whatever else it has. */
  ghost predicate FileHolds(log: Log, start: nat, p: Pos, partial: bool, ts: seq<Transaction>)
    decreases FilesFrom(log, p.file), PagesFrom(log, p), BytesFrom(p)
  {
    if p.file > start || (p.file == start && FileExhausted(log, p)) then ts == []
    else
      var r := NextRecord(log, p, partial);
      if !r.Whole? then r.Nothing? && ts == []
      else
        BeforeShrinks(log, p, r.end);
        if r.rtype == TYPE_COMMIT then
          ts != [] && Committed(log, ts[0], r.data) && FileHolds(log, start, r.end, false, ts[1..])
        else FileHolds(log, start, r.end, partial, ts)
  }

  lemma {:induction false} GroupsAreOutput(log: Log, start: nat, p: Pos, partial: bool, ts: seq<Transaction>)
    requires FileHolds(log, start, p, partial, ts)
    ensures Groups(log, start, p, partial) == Flow(AllOutput(ts), Done)
    decreases FilesFrom(log, p.file), PagesFrom(log, p), BytesFrom(p)
  {
    hide Group, Committed, Output, FilesFrom, PagesFrom, BytesFrom, FileExhausted, NextRecord;
    if !(p.file > start || (p.file == start && FileExhausted(log, p))) {
      var r := NextRecord(log, p, partial);
      if r.Whole? {
        BeforeShrinks(log, p, r.end);
        if r.rtype == TYPE_COMMIT {
          CommitReadsBack(log, ts[0], r.data);
          GroupsAreOutput(log, start, r.end, false, ts[1..]);
        } else {
          GroupsAreOutput(log, start, r.end, partial, ts);
        }
      }
    }
  }

  /** Round trip: reading a file that holds transactions outputs them, each with its out-of-band data, in log order. */
  method ReadTransactions(log: Log, file: nat, startPosition: nat, sizes: nat -> nat, ghost p: Pos, ghost ts: seq<Transaction>)
    returns (output: seq<Byte>)
    requires FilesBounded(log) && file in log && StateRecordFirst(log, file) && startPosition < 0x1_0000_0000
    requires p.file == file && p.off < PAGE_SIZE &&
      if startPosition < PAGE_SIZE then p.page == 1 && p.off == 0 else PAGE_SIZE * p.page + p.off == startPosition
    requires FileHolds(log, file, p, true, ts)
    requires forall i :: sizes(i) >= MAX_EXCESS
    ensures output == AllOutput(ts)
  {
    hide FileHolds, Groups;
    GroupsAreOutput(log, file, p, true, ts);
    var clean;
    clean, output := ReadFile(log, file, startPosition, sizes, p);
  }
}
