/** Starting to read at any chunk boundary of a file: the output is that of the commit records that start there or
    later.
  */
module BinlogStarts {
  import opened BinlogFormat
  import opened OobForest
  import opened OobReading
  import opened EventReading
  import opened BinlogRuns

  // ----- walking over the chunks of a log -----

  /** The boundary after the chunk at `p`. */
  ghost function Next(log: Log, p: Pos): (q: Pos)
    requires Locate(log, p).At?
    ensures Reached(log, p, q) && Reached(log, Locate(log, p).at, q)
  {
    var c := Locate(log, p);
    AfterIsLater(log, p);
    After(log, c.at, |c.data|)
  }

  /** Going from chunk to chunk leads from `p` to `q`. */
  ghost predicate Walks(log: Log, p: Pos, q: Pos)
    decreases FilesFrom(log, p.file), PagesFrom(log, p), BytesFrom(p)
  {
    p == q || (Locate(log, p).At? && (ReachedOn(log, p, p, Next(log, p)); Walks(log, Next(log, p), q)))
  }

  predicate Earlier(a: Pos, b: Pos) {
    a.file < b.file || (a.file == b.file && (a.page < b.page || (a.page == b.page && a.off < b.off)))
  }

  lemma {:induction false} WalksLater(log: Log, p: Pos, q: Pos)
    requires Walks(log, p, q)
    ensures p == q || (Reached(log, p, q) && Earlier(p, q))
    ensures p != q ==> Locate(log, p).At? && Walks(log, Next(log, p), q) && Earlier(Locate(log, p).at, q)
    decreases FilesFrom(log, p.file), PagesFrom(log, p), BytesFrom(p)
  {
    if p != q {
      var next := Next(log, p);
      ReachedOn(log, p, p, next);
      WalksLater(log, next, q);
      if next != q {
        ReachedOn(log, p, next, q);
      }
    }
  }

  lemma {:induction false} WalksOn(log: Log, p: Pos, q: Pos, r: Pos)
    requires Walks(log, p, q) && Walks(log, q, r)
    ensures Walks(log, p, r)
    decreases FilesFrom(log, p.file), PagesFrom(log, p), BytesFrom(p)
  {
    if p != q {
      ReachedOn(log, p, p, Next(log, p));
      WalksOn(log, Next(log, p), q, r);
    }
  }

  /** There is only one way to walk. */
  lemma {:induction false} WalksMeet(log: Log, p: Pos, q: Pos, r: Pos)
    requires Walks(log, p, q) && Walks(log, p, r)
    ensures Walks(log, q, r) || Walks(log, r, q)
    decreases FilesFrom(log, p.file), PagesFrom(log, p), BytesFrom(p)
  {
    if p != q && p != r {
      ReachedOn(log, p, p, Next(log, p));
      WalksMeet(log, Next(log, p), q, r);
    }
  }

  // ----- the chunks of a record -----

  predicate StartsCommit(c: Lookup) {
    c.At? && !IsCont(c.kind) && RecordType(c.kind) == TYPE_COMMIT
  }

  /** Reading the rest of a record walks over its chunks and those nested in it, and none of them starts a commit
      record. */
  lemma {:induction false} RestWalks(log: Log, p: Pos, t: Byte, q: Pos)
    requires RestOf(log, p, t).Whole?
    ensures Walks(log, p, RestOf(log, p, t).end)
    ensures Walks(log, p, q) && Walks(log, q, RestOf(log, p, t).end) && q != RestOf(log, p, t).end ==>
            !StartsCommit(Locate(log, q))
    decreases FilesFrom(log, p.file), PagesFrom(log, p), BytesFrom(p)
  {
    var c := Locate(log, p);
    var next := Next(log, p);
    var end := RestOf(log, p, t).end;
    ReachedOn(log, p, p, next);
    if RecordType(c.kind) == t && IsLast(c.kind) {
      assert end == next && Walks(log, next, next);
      if Walks(log, p, q) && Walks(log, q, end) && q != end && q != p {
        WalksLater(log, next, q);
        WalksLater(log, q, end);
      }
    } else {
      RestWalks(log, next, t, q);
    }
  }

  /** The same for a record from its first chunk on. */
  lemma RecordWalks(log: Log, p: Pos, q: Pos)
    requires Locate(log, p).At? && !IsCont(Locate(log, p).kind) && NextRecord(log, p, false).Whole?
    ensures Walks(log, Next(log, p), NextRecord(log, p, false).end)
    ensures Walks(log, Next(log, p), q) && Walks(log, q, NextRecord(log, p, false).end) && q != NextRecord(log, p, false).end ==>
            !StartsCommit(Locate(log, q))
  {
    var c := Locate(log, p);
    LocateAgain(log, p);
    var next, end := Next(log, p), NextRecord(log, p, false).end;
    if IsLast(c.kind) {
      assert end == next;
      if Walks(log, next, q) && Walks(log, q, end) && q != end {
        WalksLater(log, next, q);
        WalksLater(log, q, end);
      }
    } else {
      RestWalks(log, next, RecordType(c.kind), q);
    }
  }

  // ----- well-formed files -----

  /** Reading record after record from `p` to the end of the file meets no broken one. */
  ghost predicate ReadsPlainly(log: Log, start: nat, p: Pos)
    decreases FilesFrom(log, p.file), PagesFrom(log, p), BytesFrom(p)
  {
    p.file > start || (p.file == start && FileExhausted(log, p)) ||
    var r := NextRecord(log, p, false);
    r.Nothing? || (r.Whole? && (ReachedOn(log, p, p, r.end); ReadsPlainly(log, start, r.end)))
  }

  /** Every record that starts in the file from `p` on is complete, those inside other records included. */
  ghost predicate StartsComplete(log: Log, start: nat, p: Pos)
    decreases FilesFrom(log, p.file), PagesFrom(log, p), BytesFrom(p)
  {
    var c := Locate(log, p);
    c.At? && c.at.file == start ==>
      && (IsCont(c.kind) || (LocateAgain(log, p); RecordFrom(log, c).Whole?))
      && (ReachedOn(log, p, p, Next(log, p)); StartsComplete(log, start, Next(log, p)))
  }

  lemma {:induction false} CompleteOn(log: Log, start: nat, p: Pos, q: Pos)
    requires StartsComplete(log, start, p) && Walks(log, p, q) && p.file == start == q.file
    ensures StartsComplete(log, start, q)
    decreases FilesFrom(log, p.file), PagesFrom(log, p), BytesFrom(p)
  {
    if p != q {
      WalksLater(log, p, q);
      AfterIsLater(log, p);
      var next := Next(log, p);
      ReachedOn(log, p, p, next);
      WalksLater(log, next, q);
      CompleteOn(log, start, next, q);
    }
  }

  // ----- the commit records from a boundary on -----

  /** Of the records that plain reading from `p` meets, the event groups of the commit records whose first chunk is at
      `q` or later. */
  ghost function GroupsAfter(log: Log, start: nat, p: Pos, q: Pos): Flow
    decreases FilesFrom(log, p.file), PagesFrom(log, p), BytesFrom(p)
  {
    if p.file > start || (p.file == start && FileExhausted(log, p)) then NOTHING
    else
      var r := NextRecord(log, p, false);
      if r.Nothing? then NOTHING
      else if r.Broken? then Flow([], Torn)
      else
        ReachedOn(log, p, p, r.end);
        if r.rtype == TYPE_COMMIT && !Earlier(Locate(log, p).at, q)
        then Group(log, r.data).Then(GroupsAfter(log, start, r.end, q))
        else GroupsAfter(log, start, r.end, q)
  }

  /** In a file that reads plainly, passing over continuation chunks makes no difference. */
  lemma {:induction false} PlainIsPartial(log: Log, start: nat, p: Pos)
    requires ReadsPlainly(log, start, p)
    ensures Groups(log, start, p, true) == Groups(log, start, p, false)
    decreases FilesFrom(log, p.file), PagesFrom(log, p), BytesFrom(p)
  {
    if !(p.file > start || (p.file == start && FileExhausted(log, p))) {
      var r := NextRecord(log, p, false);
      assert NextRecord(log, p, true) == r;
      if r.Whole? {
        ReachedOn(log, p, p, r.end);
        PlainIsPartial(log, start, r.end);
      }
    }
  }

  /** The record that plain reading meets next. */
  lemma PlainRecord(log: Log, p: Pos)
    requires NextRecord(log, p, false).Whole?
    ensures Locate(log, p).At? && !IsCont(Locate(log, p).kind)
    ensures NextRecord(log, p, false).rtype == RecordType(Locate(log, p).kind)
    ensures !Earlier(Locate(log, p).at, p)
  {
    LocateAgain(log, p);
  }

  /** From `q` on, all the commit records count. */
  lemma {:induction false} AllAfter(log: Log, start: nat, p: Pos, q: Pos)
    requires Walks(log, q, p)
    ensures GroupsAfter(log, start, p, q) == Groups(log, start, p, false)
    decreases FilesFrom(log, p.file), PagesFrom(log, p), BytesFrom(p)
  {
    var r := NextRecord(log, p, false);
    if r.Whole? {
      PlainRecord(log, p);
      RecordWalks(log, p, p);
      WalksLater(log, q, p);
      WalksOn(log, q, p, r.end);
      ReachedOn(log, p, p, r.end);
      AllAfter(log, start, r.end, q);
    }
  }

  /** The record at `p`, which starts before `q`, and `q`: either the record ends before `q`, or `q` is inside it. */
  lemma RecordAndBoundary(log: Log, start: nat, p: Pos, q: Pos)
    requires ReadsPlainly(log, start, p) && Walks(log, p, q) && p != q
    requires p.file == start && !FileExhausted(log, p)
    ensures var r := NextRecord(log, p, false);
      && r.Whole? && ReadsPlainly(log, start, r.end) && Reached(log, p, r.end) && Walks(log, p, r.end)
      && GroupsAfter(log, start, p, q) == GroupsAfter(log, start, r.end, q)
      && (Walks(log, r.end, q) || (q != r.end && Walks(log, q, r.end) && !StartsCommit(Locate(log, q))))
  {
    WalksLater(log, p, q);
    var r := NextRecord(log, p, false);
    PlainRecord(log, p);
    RecordWalks(log, p, q);
    ReachedOn(log, p, p, r.end);
    WalksMeet(log, Next(log, p), q, r.end);
    OneStep(log, p);
    WalksOn(log, p, Next(log, p), r.end);
    if q == r.end {
      assert Walks(log, r.end, q);
    }
  }

  lemma OneStep(log: Log, q: Pos)
    requires Locate(log, q).At?
    ensures Walks(log, q, Next(log, q)) && q != Next(log, q)
  {
    ReachedOn(log, q, q, Next(log, q));
    assert Walks(log, Next(log, q), Next(log, q));
  }

  lemma StepAtFirst(log: Log, start: nat, p: Pos)
    requires p.file == start && !FileExhausted(log, p) && NextRecord(log, p, false).Whole? && !StartsCommit(Locate(log, p))
    ensures Locate(log, p).At? && GroupsAfter(log, start, p, p) == GroupsAfter(log, start, p, Next(log, p))
  {
    hide Walks;
    PlainRecord(log, p);
    var r, next := NextRecord(log, p, false), Next(log, p);
    RecordWalks(log, p, p);
    OneStep(log, p);
    WalksOn(log, p, next, r.end);
    AllAfter(log, start, r.end, p);
    AllAfter(log, start, r.end, next);
  }

  lemma NothingAfter(log: Log, start: nat, p: Pos, q: Pos)
    requires p.file > start || (p.file == start && FileExhausted(log, p)) || NextRecord(log, p, false).Nothing?
    ensures GroupsAfter(log, start, p, q) == NOTHING
  {
  }

  /** A chunk that does not start a commit record can be left out. */
  lemma {:induction false} StepAfter(log: Log, start: nat, p: Pos, q: Pos)
    requires ReadsPlainly(log, start, p) && Walks(log, p, q) && Locate(log, q).At? && !StartsCommit(Locate(log, q))
    requires p.file >= start
    ensures GroupsAfter(log, start, p, q) == GroupsAfter(log, start, p, Next(log, q))
    decreases FilesFrom(log, p.file), PagesFrom(log, p), BytesFrom(p)
  {
    hide Earlier, GroupsAfter, Walks, FileExhausted, StartsCommit;
    var next := Next(log, q);
    if p.file > start || FileExhausted(log, p) || NextRecord(log, p, false).Nothing? {
      NothingAfter(log, start, p, q);
      NothingAfter(log, start, p, next);
    } else if p == q {
      StepAtFirst(log, start, p);
    } else {
      var r := NextRecord(log, p, false);
      OneStep(log, q);
      WalksOn(log, p, q, next);
      NotSame(log, p, q, next);
      RecordAndBoundary(log, start, p, q);
      RecordAndBoundary(log, start, p, next);
      ReachedOn(log, p, p, r.end);
      if Walks(log, r.end, q) {
        StepAfter(log, start, r.end, q);
      } else {
        WalksLater(log, q, r.end);
        AllAfter(log, start, r.end, q);
        AllAfter(log, start, r.end, next);
      }
    }
  }

  lemma NotSame(log: Log, p: Pos, q: Pos, r: Pos)
    requires Walks(log, p, q) && Walks(log, q, r) && q != r
    ensures p != r
  {
    WalksLater(log, p, q);
    WalksLater(log, q, r);
  }

  /** So can several of them. */
  lemma {:induction false} SpanAfter(log: Log, start: nat, p: Pos, q: Pos, e: Pos)
    requires ReadsPlainly(log, start, p) && Walks(log, p, q) && Walks(log, q, e) && p.file >= start
    requires forall x :: Walks(log, q, x) && Walks(log, x, e) && x != e ==> !StartsCommit(Locate(log, x))
    ensures GroupsAfter(log, start, p, q) == GroupsAfter(log, start, p, e)
    decreases FilesFrom(log, q.file), PagesFrom(log, q), BytesFrom(q)
  {
    if q != e {
      hide GroupsAfter, ReadsPlainly, StartsCommit;
      WalksLater(log, q, e);
      var next := Next(log, q);
      assert Walks(log, q, q);
      StepAfter(log, start, p, q);
      OneStep(log, q);
      WalksOn(log, p, q, next);
      ReachedOn(log, q, q, next);
      forall x | Walks(log, next, x) && Walks(log, x, e) && x != e
        ensures !StartsCommit(Locate(log, x))
      {
        WalksOn(log, q, next, x);
      }
      SpanAfter(log, start, p, next, e);
    }
  }

  /** No commit record of the file starts after its end. */
  lemma {:induction false} NoneAfterFile(log: Log, start: nat, p: Pos, q: Pos)
    requires ReadsPlainly(log, start, p) && Walks(log, p, q) && q.file > start && p.file >= start
    ensures GroupsAfter(log, start, p, q) == NOTHING
    decreases FilesFrom(log, p.file), PagesFrom(log, p), BytesFrom(p)
  {
    hide GroupsAfter, Walks, FileExhausted, StartsCommit;
    if p.file > start || FileExhausted(log, p) || NextRecord(log, p, false).Nothing? {
      NothingAfter(log, start, p, q);
    } else {
      RecordAndBoundary(log, start, p, q);
      var r := NextRecord(log, p, false);
      ReachedOn(log, p, p, r.end);
      if Walks(log, r.end, q) {
        NoneAfterFile(log, start, r.end, q);
      } else {
        WalksLater(log, q, r.end);
        NothingAfter(log, start, r.end, q);
      }
    }
  }

  /** With no chunk left in the file, reading goes on at the start of the next one. */
  lemma {:induction false} OnToNextFile(log: Log, p: Pos)
    requires p.file in log && p.page < |log[p.file]| && Locate(log, p).At? && Locate(log, p).at.file > p.file
    ensures Locate(log, p) == Locate(log, Pos(p.file + 1, 1, 0))
    decreases PagesFrom(log, p)
  {
    var next := NextPage(log, p);
    if next.file == p.file {
      BeforeShrinks(log, p, next);
      OnToNextFile(log, next);
    }
  }

  /** At the end of the file inside a record, nothing more comes. */
  lemma NothingInNextFile(log: Log, start: nat, q: Pos)
    requires q.file == start && !FileExhausted(log, q) && StateRecordFirst(log, start)
    requires Locate(log, q).At? && Locate(log, q).at.file > start
    ensures Groups(log, start, q, true) == NOTHING
  {
    var first := Pos(start + 1, 1, 0);
    OnToNextFile(log, q);
    assert NextRecord(log, q, true) == NextRecord(log, first, true);
  }

  /** Passing over a continuation chunk, or over a record that is not a commit record. */
  lemma SkipStep(log: Log, start: nat, q: Pos) returns (e: Pos)
    requires q.file == start && !FileExhausted(log, q) && StateRecordFirst(log, start) && StartsComplete(log, start, q)
    requires Locate(log, q).At? && Locate(log, q).at.file == start && !StartsCommit(Locate(log, q))
    ensures Groups(log, start, q, true) == Groups(log, start, e, true)
    ensures Walks(log, q, e) && q != e
    ensures forall x :: Walks(log, q, x) && Walks(log, x, e) && x != e ==> !StartsCommit(Locate(log, x))
  {
    var c := Locate(log, q);
    LocateAgain(log, q);
    OneStep(log, q);
    SkipsOne(log, start, q);
    if IsCont(c.kind) {
      e := Next(log, q);
    } else {
      e := RecordFrom(log, c).end;
      RecordWalks(log, q, q);
      WalksOn(log, q, Next(log, q), e);
      if Next(log, q) != e {
        NotSame(log, q, Next(log, q), e);
      }
    }
    forall x | Walks(log, q, x) && Walks(log, x, e) && x != e
      ensures !StartsCommit(Locate(log, x))
    {
      if x != q {
        WalksLater(log, q, x);
        if IsCont(c.kind) {
          WalksLater(log, e, x);
          WalksLater(log, x, e);
        } else {
          RecordWalks(log, q, x);
        }
      }
    }
  }

  /** Starting at any chunk boundary `q` of a well-formed file, between records or inside one, of whatever type: what the
      reader delivers is exactly the event groups of the commit records whose first chunk is at `q` or later, out of
      those that plain reading from `p` meets. */
  lemma {:induction false} StartAnywhere(log: Log, start: nat, p: Pos, q: Pos)
    requires ReadsPlainly(log, start, p) && StartsComplete(log, start, p) && StateRecordFirst(log, start)
    requires p.file == start == q.file && !FileExhausted(log, p) && Walks(log, p, q)
    ensures Groups(log, start, q, true) == GroupsAfter(log, start, p, q)
    decreases FilesFrom(log, q.file), PagesFrom(log, q), BytesFrom(q), FilesFrom(log, p.file), PagesFrom(log, p), BytesFrom(p)
  {
    hide Groups, GroupsAfter, Walks, FileExhausted, StartsCommit, StateRecordFirst, StartsComplete, ReadsPlainly, Locate;
    hide FilesFrom, PagesFrom, BytesFrom, Earlier;
    if p == q {
      PlainIsPartial(log, start, p);
      AllAfter(log, start, p, p);
    } else {
      RecordAndBoundary(log, start, p, q);
      var end := NextRecord(log, p, false).end;
      WalksLater(log, p, q);
      if Walks(log, end, q) {
        WalksLater(log, end, q);
        ReachedOn(log, p, p, end);
        NotExhausted(log, p, end);
        CompleteOn(log, start, p, end);
        StartAnywhere(log, start, end, q);
      } else {
        WalksLater(log, q, end);
        NotExhausted(log, p, q);
        CompleteOn(log, start, p, q);
        if Locate(log, q).at.file > start {
          var next := Next(log, q);
          NothingInNextFile(log, start, q);
          StepAfter(log, start, p, q);
          OneStep(log, q);
          WalksOn(log, p, q, next);
          LaterFile(log, start, q);
          NoneAfterFile(log, start, p, next);
        } else {
          ChunkInFile(log, q);
          var e := SkipStep(log, start, q);
          SpanAfter(log, start, p, q, e);
          WalksOn(log, p, q, e);
          WalksLater(log, q, e);
          if e.file > start {
            NoneAfterFile(log, start, p, e);
            AfterTheFile(log, start, e);
          } else {
            ReachedOn(log, q, q, e);
            StartAnywhere(log, start, p, e);
          }
        }
      }
    }
  }

  lemma NotExhausted(log: Log, p: Pos, q: Pos)
    requires Reached(log, p, q)
    ensures p.file <= q.file && (p.file == q.file ==> !FileExhausted(log, q))
  {
  }

  lemma ChunkInFile(log: Log, q: Pos)
    requires Locate(log, q).At?
    ensures Locate(log, q).at.file >= q.file
  {
  }

  lemma LaterFile(log: Log, start: nat, q: Pos)
    requires Locate(log, q).At? && Locate(log, q).at.file > start
    ensures Next(log, q).file > start
  {
    AfterIsLater(log, q);
  }

  lemma AfterTheFile(log: Log, start: nat, e: Pos)
    requires e.file > start
    ensures Groups(log, start, e, true) == NOTHING
  {
  }

  /** Starting inside any record, a GTID state or dummy record included: the reader delivers what plain reading delivers
      from the end of that record on. */
  lemma StartInsideRecord(log: Log, start: nat, p: Pos, t: Byte, e: Pos)
    requires GoesOn(log, p, t, e) && ReadsPlainly(log, start, e)
    requires p.file == start && !FileExhausted(log, p) && StateRecordFirst(log, start)
    ensures Groups(log, start, p, true) == Groups(log, start, e, false)
    ensures !MayNest(t) ==> RestOf(log, p, t).Whole? && RestOf(log, p, t).end == e
  {
    GoesOnIsSkipped(log, p, t, e);
    StartInTheMiddle(log, start, p, e);
    PlainIsPartial(log, start, e);
    if !MayNest(t) {
      GoesOnIsRest(log, p, t, e);
    }
  }

  /** Reading a well-formed file from a chunk boundary: the output is that of the commit records that start there or
      later, and of no other. */
  method ReadFromBoundary(log: Log, file: nat, startPosition: nat, sizes: nat -> nat, ghost p: Pos)
    returns (clean: bool, output: seq<Byte>)
    requires FilesBounded(log) && file in log && StateRecordFirst(log, file) && startPosition < 0x1_0000_0000
    requires p.file == file && p.off < PAGE_SIZE &&
      if startPosition < PAGE_SIZE then p.page == 1 && p.off == 0 else PAGE_SIZE * p.page + p.off == startPosition
    requires var first := Pos(file, 1, 0);
      && ReadsPlainly(log, file, first) && StartsComplete(log, file, first) && !FileExhausted(log, first)
      && Walks(log, first, p) && GroupsAfter(log, file, first, p).end != Torn
    requires forall i :: sizes(i) > 0
    ensures var all := GroupsAfter(log, file, Pos(file, 1, 0), p);
      && (clean <==> all.end == Done) && Within(output, all.bytes)
      && ((forall i :: sizes(i) >= MAX_EXCESS) ==> output <= all.bytes && (clean ==> output == all.bytes))
  {
    hide Within;
    StartAnywhere(log, file, Pos(file, 1, 0), p);
    clean, output := ReadFile(log, file, startPosition, sizes, p);
  }

  /** Reading a well-formed file from an offset inside its header: the output is that of all its commit records. */
  method ReadWholeFile(log: Log, file: nat, startPosition: nat, sizes: nat -> nat) returns (clean: bool, output: seq<Byte>)
    requires FilesBounded(log) && file in log && StateRecordFirst(log, file) && startPosition < PAGE_SIZE
    requires ReadsPlainly(log, file, Pos(file, 1, 0)) && Groups(log, file, Pos(file, 1, 0), false).end != Torn
    requires forall i :: sizes(i) > 0
    ensures var all := Groups(log, file, Pos(file, 1, 0), false);
      && (clean <==> all.end == Done) && Within(output, all.bytes)
      && ((forall i :: sizes(i) >= MAX_EXCESS) ==> output <= all.bytes && (clean ==> output == all.bytes))
  {
    hide Within;
    PlainIsPartial(log, file, Pos(file, 1, 0));
    clean, output := ReadFile(log, file, startPosition, sizes, Pos(file, 1, 0));
  }
}
