/** From the bytes that the server writes to the output of the reader: the layout into chunks, pages and files, the
    records of transactions, and the runs of the reader together.
  */
module BinlogEndToEnd {
  import opened BinlogFormat
  import opened ChunkReading
  import opened OobForest
  import opened OobReading
  import opened EventReading
  import opened OobWriting
  import opened BinlogRoundTrip
  import W = BinlogWriting

  /** A node record that is read back where it was written is a node of the heap. */
  lemma NodeWritten(log: Log, a: Addr, index: nat, n: Node, end: Pos)
    requires n.Node? && n.data != [] && index < 0x1_0000_0000_0000_0000 && Fits64(n.left) && Fits64(n.right)
    requires NextRecord(log, PosOf(a.file, a.offset), false) == Whole(TYPE_OOB_DATA, NodeRecord(index, n), end)
    ensures a in HeapOf(log) && HeapOf(log)[a] == n
  {
    hide NodeRecord;
    NodeRoundTrip(index, n, end);
  }

  /** The commit records among `items` are those of the transactions `ts`. */
  ghost predicate Commits(log: Log, items: seq<W.Item>, ts: seq<Transaction>)
    decreases |items|
  {
    if items == [] then ts == []
    else if items[0].rtype == TYPE_COMMIT then
      ts != [] && Committed(log, ts[0], items[0].data) && Commits(log, items[1..], ts[1..])
    else Commits(log, items[1..], ts)
  }

  /** A reader that skips partial records meets the same record. */
  lemma SameWithPartial(log: Log, p: Pos, partial: bool)
    requires NextRecord(log, p, false) != Broken
    ensures NextRecord(log, p, partial) == NextRecord(log, p, false)
  {
  }

  /** The last file of a log, read from a place that is not past its end. */
  lemma {:induction false} FileIsHeld(log: Log, file: nat, p: Pos, partial: bool, items: seq<W.Item>, e: Pos, ts: seq<Transaction>)
    requires W.Reads(log, p, items, e) && NextRecord(log, e, false) == Nothing && Commits(log, items, ts)
    requires file in log && forall f :: f in log ==> f <= file
    requires p.file == file && !FileExhausted(log, p)
    ensures FileHolds(log, file, p, partial, ts)
    decreases |items|
  {
    hide NextRecord, Committed, FilesFrom, PagesFrom, BytesFrom, FileExhausted;
    SameWithPartial(log, p, partial);
    if items != [] {
      var r := NextRecord(log, p, false);
      EndOfRecord(log, p);
      if r.end.file == file {
        FileIsHeld(log, file, r.end, partial && r.rtype != TYPE_COMMIT, items[1..], e, if r.rtype == TYPE_COMMIT then ts[1..] else ts);
      } else {
        assert items[1..] == [];
      }
    }
  }

  lemma EndOfRecord(log: Log, p: Pos)
    requires NextRecord(log, p, false).Whole? && p.file in log && forall f :: f in log ==> f <= p.file
    ensures var q := NextRecord(log, p, false).end;
      q.file >= p.file && (q.file == p.file ==> !FileExhausted(log, q)) && (q.file > p.file ==> NextRecord(log, q, false) == Nothing)
  {
    var q := NextRecord(log, p, false).end;
    assert Reached(log, p, q);
    if q.file > p.file {
      assert Locate(log, q) == End;
    }
  }

  /** Round trip from bytes to output: reading a file that the server wrote outputs its transactions, each with its
      out-of-band data, in the order in which they were committed, whatever GTID states are between and inside the
      records. */
  method ReadWritten(w: W.BinlogWriter, startPosition: nat, sizes: nat -> nat, ghost ts: seq<Transaction>)
    returns (output: seq<Byte>)
    requires w.Valid() && w.file in w.log && w.log.Keys == {w.file} && w.first == Pos(w.file, 1, 0) && FilesBounded(w.log)
    requires Commits(w.log, w.items, ts) && startPosition < PAGE_SIZE && forall i :: sizes(i) >= MAX_EXCESS
    ensures output == AllOutput(ts)
  {
    hide W.Holds, W.Blank, Commits, NextRecord, W.Reads, FileHolds;
    w.ReadsBack();
    ghost var e := W.ReaderAt(w.sizes, w.Place());
    NoNextFile(w.log, w.file);
    FileIsHeld(w.log, w.file, w.first, true, w.items, e, ts);
    output := ReadTransactions(w.log, w.file, startPosition, sizes, w.first, ts);
  }

  lemma NoNextFile(log: Log, file: nat)
    requires file + 1 !in log
    ensures StateRecordFirst(log, file)
  {
  }
}
