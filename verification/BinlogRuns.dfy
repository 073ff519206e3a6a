/** Whole runs of the event-group reader: what a caller gets, however it slices its buffers and
    wherever in a record it starts.
  */
module BinlogRuns {
  import opened BinlogFormat
  import opened OobForest
  import opened OobReading
  import opened EventReading

  /** `a` is what is left of `b` when some elements are dropped. */
  ghost predicate Within(a: seq<Byte>, b: seq<Byte>) {
    if b == [] then a == []
    else (a != [] && a[0] == b[0] && Within(a[1..], b[1..])) || Within(a, b[1..])
  }

  lemma {:induction false} NothingWithin(b: seq<Byte>)
    ensures Within([], b)
  {
    if b != [] {
      NothingWithin(b[1..]);
    }
  }

  lemma {:induction false} WithinBoth(a: seq<Byte>, b: seq<Byte>, c: seq<Byte>, d: seq<Byte>)
    requires Within(a, b) && Within(c, d)
    ensures Within(a + c, b + d)
    decreases |b|
  {
    if b == [] {
      assert a + c == c && b + d == d;
    } else {
      assert (b + d)[1..] == b[1..] + d;
      if a != [] && a[0] == b[0] && Within(a[1..], b[1..]) {
        WithinBoth(a[1..], b[1..], c, d);
        assert (a + c)[1..] == a[1..] + c;
      } else {
        WithinBoth(a, b[1..], c, d);
      }
    }
  }

  lemma {:induction false} WithinItself(a: seq<Byte>)
    ensures Within(a, a)
  {
    if a != [] {
      WithinItself(a[1..]);
    }
  }

  /** Some more output, and perhaps some more that is dropped. */
  lemma WithinMore(output: seq<Byte>, full: seq<Byte>, data: seq<Byte>, dropped: seq<Byte>)
    requires Within(output, full)
    ensures Within(output + data, full + (data + dropped)) && Within(output + [], full + data)
  {
    WithinItself(data);
    NothingWithin(dropped);
    NothingWithin(data);
    WithinBoth(data, data, [], dropped);
    assert data + [] == data;
    WithinBoth(output, full, data, data + dropped);
    WithinBoth(output, full, [], data);
  }

  /** Reads until there is nothing more, asking for `sizes(i)` bytes in call `i`. Whether it ends cleanly does not depend
      on the sizes, nor does the output if no size is below 40; otherwise some of it may be dropped. */
  method Drain(reader: EventReader, sizes: nat -> nat) returns (clean: bool, output: seq<Byte>)
    requires reader.Valid() && forall i :: sizes(i) > 0
    modifies reader, reader.rd, reader.oob
    ensures clean <==> old(reader.StillToCome()).end == Done
    ensures Within(output, old(reader.StillToCome()).bytes)
    ensures (forall i :: sizes(i) >= MAX_EXCESS) ==> output <= old(reader.StillToCome()).bytes
    ensures (forall i :: sizes(i) >= MAX_EXCESS) && clean ==> output == old(reader.StillToCome()).bytes
  {
    hide EventReader.StillToCome, EventReader.Valid, EventReader.MustTakeNext, Within;
    ghost var all := reader.StillToCome();
    ghost var full: seq<Byte> := [];
    ghost var large := forall i :: sizes(i) >= MAX_EXCESS;
    output := [];
    var i := 0;
    EmptyFront(all, NOTHING);
    NothingWithin([]);
    while true
      invariant reader.Valid() && all == Flow(full, Done).Then(reader.StillToCome())
      invariant Within(output, full) && (large ==> output == full)
      decreases |reader.StillToCome().bytes|
    {
      ghost var rest := reader.StillToCome();
      var res, data, dropped := reader.ReadData(sizes(i));
      if res < 0 {
        WithinMore(output, full, rest.bytes, []);
        assert output + [] == output;
        return false, output;
      }
      WithinMore(output, full, data, dropped);
      ThenAssociates(Flow(full, Done), Flow(data + dropped, Done), reader.StillToCome());
      full := full + (data + dropped);
      output := output + data;
      assert large ==> data + dropped == data;
      if res == 0 {
        assert full + [] == full;
        return true, output;
      }
      i := i + 1;
    }
  }

  /** Reading a file from an offset, which is at `p`, or from the page after the header: the output is that of every
      commit record found from there on in the file, in log order, each followed by its out-of-band data. */
  method ReadFile(log: Log, file: nat, startPosition: nat, sizes: nat -> nat, ghost p: Pos)
    returns (clean: bool, output: seq<Byte>)
    requires FilesBounded(log) && file in log && StateRecordFirst(log, file) && startPosition < 0x1_0000_0000
    requires p.file == file && p.off < PAGE_SIZE &&
      if startPosition < PAGE_SIZE then p.page == 1 && p.off == 0 else PAGE_SIZE * p.page + p.off == startPosition
    requires Groups(log, file, p, true).end != Torn
    requires forall i :: sizes(i) > 0
    ensures var all := Groups(log, file, p, true);
      && (clean <==> all.end == Done) && Within(output, all.bytes)
      && ((forall i :: sizes(i) >= MAX_EXCESS) ==> output <= all.bytes && (clean ==> output == all.bytes))
  {
    hide Groups, Within;
    var reader := new EventReader(log, file, startPosition, p);
    clean, output := Drain(reader, sizes);
  }

  // ----- starting in the middle of a record -----

  datatype Step = Stop | Go(to: Pos)

  /** Past one continuation chunk, or past one complete record that is not a commit record. */
  ghost function PastOne(log: Log, p: Pos): (n: Step)
    ensures n.Go? ==> Reached(log, p, n.to)
  {
    var c := Locate(log, p);
    if !c.At? || c.at.file != p.file then Stop
    else
      LocateAgain(log, p);
      AfterIsLater(log, p);
      if IsCont(c.kind) then Go(After(log, c.at, |c.data|))
      else
        var r := RecordFrom(log, c);
        if r.Whole? && r.rtype != TYPE_COMMIT then Go(r.end) else Stop
  }

  /** From `p` to `e` there are only continuation chunks and complete records that are not commit
      records. */
  ghost predicate LeadsTo(log: Log, p: Pos, e: Pos)
    decreases FilesFrom(log, p.file), PagesFrom(log, p), BytesFrom(p)
  {
    p == e ||
    var n := PastOne(log, p);
    n.Go? && (ReachedOn(log, p, p, n.to); LeadsTo(log, n.to, e))
  }

  lemma {:induction false} LeadsOnward(log: Log, p: Pos, e: Pos)
    requires LeadsTo(log, p, e)
    ensures p.file <= e.file
    decreases FilesFrom(log, p.file), PagesFrom(log, p), BytesFrom(p)
  {
    if p != e {
      ReachedOn(log, p, p, PastOne(log, p).to);
      LeadsOnward(log, PastOne(log, p).to, e);
    }
  }

  /** One step of skipping, inside the file and at its end. */
  lemma SkipsOne(log: Log, start: nat, p: Pos)
    requires p.file == start && !FileExhausted(log, p) && StateRecordFirst(log, start) && PastOne(log, p).Go?
    ensures Groups(log, start, p, true) == Groups(log, start, PastOne(log, p).to, true)
  {
    var c := Locate(log, p);
    var next := PastOne(log, p).to;
    if IsCont(c.kind) {
      assert NextRecord(log, p, true) == NextRecord(log, next, true);
      if next.file > start {
        assert next == Pos(start + 1, 1, 0);
      }
    } else {
      assert NextRecord(log, p, true) == RecordFrom(log, c);
    }
  }

  /** Starting at `p`, in the middle of a record or before other records, gives exactly the event
      groups from `e` on, where the next commit record can first begin. */
  lemma {:induction false} StartInTheMiddle(log: Log, start: nat, p: Pos, e: Pos)
    requires LeadsTo(log, p, e) && p.file == start && !FileExhausted(log, p) && StateRecordFirst(log, start)
    ensures Groups(log, start, p, true) == Groups(log, start, e, true)
    decreases FilesFrom(log, p.file), PagesFrom(log, p), BytesFrom(p)
  {
    if p != e {
      var next := PastOne(log, p).to;
      ReachedOn(log, p, p, next);
      SkipsOne(log, start, p);
      if next.file > start {
        LeadsOnward(log, next, e);
      } else {
        StartInTheMiddle(log, start, next, e);
      }
    }
  }

  /** A record of type `t` goes on at `p` and ends at `e`; the records that interrupt it are
      complete. */
  ghost predicate GoesOn(log: Log, p: Pos, t: Byte, e: Pos)
    decreases FilesFrom(log, p.file), PagesFrom(log, p), BytesFrom(p)
  {
    var c := Locate(log, p);
    && c.At? && c.at.file == p.file && |c.data| > 0
    && var next := Passed(log, p);
       ReachedOn(log, p, p, next);
       if RecordType(c.kind) == t then IsCont(c.kind) && if IsLast(c.kind) then next == e else GoesOn(log, next, t, e)
       else MayNest(RecordType(c.kind)) && !IsCont(c.kind) && PastOne(log, p).Go? && GoesOn(log, next, t, e)
  }

  /** Past the chunk at `p`, or past the record that starts there. */
  ghost function Passed(log: Log, p: Pos): (next: Pos)
    requires Locate(log, p).At?
    ensures Reached(log, p, next)
  {
    var c := Locate(log, p);
    AfterIsLater(log, p);
    if PastOne(log, p).Go? then PastOne(log, p).to else After(log, c.at, |c.data|)
  }

  /** Reading the rest of a record passes over a whole nested record. */
  lemma {:induction false} NestedPassed(log: Log, p: Pos, t: Byte, nested: Byte)
    requires MayNest(nested) && !MayNest(t) && RestOf(log, p, nested).Whole?
    ensures RestOf(log, p, t) == RestOf(log, RestOf(log, p, nested).end, t)
    decreases FilesFrom(log, p.file), PagesFrom(log, p), BytesFrom(p)
  {
    var c := Locate(log, p);
    var next := After(log, c.at, |c.data|);
    AfterIsLater(log, p);
    ReachedOn(log, p, p, next);
    if !(RecordType(c.kind) == nested && IsLast(c.kind)) {
      NestedPassed(log, next, t, nested);
    }
  }

  /** A reader that starts in the layout described by `GoesOn` skips to its end. */
  lemma {:induction false} GoesOnIsSkipped(log: Log, p: Pos, t: Byte, e: Pos)
    requires GoesOn(log, p, t, e)
    ensures LeadsTo(log, p, e)
    decreases FilesFrom(log, p.file), PagesFrom(log, p), BytesFrom(p)
  {
    var c := Locate(log, p);
    var next := Passed(log, p);
    ReachedOn(log, p, p, next);
    AfterIsLater(log, p);
    if !(RecordType(c.kind) == t && IsLast(c.kind)) {
      GoesOnIsSkipped(log, next, t, e);
    }
  }

  /** For a record that may not be nested itself, this layout is what the reader takes as the rest of the record. */
  lemma {:induction false} GoesOnIsRest(log: Log, p: Pos, t: Byte, e: Pos)
    requires GoesOn(log, p, t, e) && !MayNest(t)
    ensures RestOf(log, p, t).Whole? && RestOf(log, p, t).end == e
    decreases FilesFrom(log, p.file), PagesFrom(log, p), BytesFrom(p)
  {
    var c := Locate(log, p);
    var next := Passed(log, p);
    ReachedOn(log, p, p, next);
    AfterIsLater(log, p);
    if RecordType(c.kind) == t {
      if !IsLast(c.kind) {
        GoesOnIsRest(log, next, t, e);
      }
    } else {
      GoesOnIsRest(log, next, t, e);
      if !IsLast(c.kind) {
        NestedPassed(log, After(log, c.at, |c.data|), t, RecordType(c.kind));
      }
    }
  }
}
