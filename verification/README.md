# MariaDB client tools: verified models

This project models the parts of the MariaDB client programs and of the dbug library that work with
cursors, caches, shared lists and protocols, and proves what they promise over every input and every run. Nothing here
is executable production code; `dafny verify dfyconfig.toml` checks all of it.

| file | what it models |
|---|---|
| `BinlogFormat.dfy` | the meaning of an engine binlog: files, pages and chunks as a sequence of records |
| `ChunkReader.dfy` | the chunk reader of mysqlbinlog, with its cached file handle and page |
| `CompressedInt.dfy` | the variable length integers in record headers |
| `OobForest.dfy`, `OobReader.dfy` | out-of-band data of large transactions as a forest of nodes, and its resumable traversal |
| `EventReader.dfy`, `BinlogRuns.dfy`, `BinlogStarts.dfy` | the reader of event groups, whole runs of it, and starting anywhere in a file |
| `OobWriter.dfy` | the server side that builds the forest |
| `BinlogLimits.dfy` | commit headers as they are written, and what the header buffer of the reader refuses and loses |
| `BinlogRoundTrip.dfy` | from the transactions that are written to the output of the reader |
| `BinlogWriter.dfy`, `BinlogEndToEnd.dfy` | the server side that lays records out into chunks, pages and files, and the way from there to the output |
| `DbugTrace.dfy` | the trace bits of the dbug call stack |
| `DbugSettings.dfy` | the stack of dbug settings with shared lists and counted files |
| `DbugControl.dfy`, `DbugControlCode.dfy`, `DbugConfigure.dfy` | dbug control strings, parsed, explained and put into effect |
| `DbugStable.dfy` | which control strings survive being explained and pushed again |
| `BatchReadline.dfy` | reading lines through a growing buffer |
| `SlapScheduler.dfy`, `SlapTask.dfy` | the threads of mysqlslap, and what each of them runs |
| `ConnectionPool.dfy` | the asynchronous connection pool |
| `CompletionHash.dfy`, `CompletionGenerator.dfy` | the table behind tab completion, and its resumable enumeration |
| `CommandArgument.dfy`, `ArgumentForms.dfy` | arguments of client commands, and all the ways to write them |
| `LineLexer.dfy`, `LineScanner.dfy` | adding a line to the statement: what becomes of its characters, and the code that edits it in place |
| `LineStatements.dfy` | what is sent and kept of lines made of text, strings, comments and delimiters |
| `ClientText.dfy` | what the parts of the command line client share |

Readers and generators are specified by what is *still to come*: a function of the state and the input that gives all
future output. A call hands out the front of it and leaves the rest. From this the results about whole runs follow, and
so does that the output does not depend on how it is cut into calls.

Files, sockets, threads, the server and the file system are arbitrary: a log is any map from files to pages, a read
returns any number of bytes, `poll` reports any connections in flight, a scheduler picks any thread, and the replies to
commands and statements, which may change the buffer, the delimiter and the modes of the server, are any sequence.

What the code does not meet, and exactly when:

- An out-of-band read drops bytes if and only if its buffer is smaller than what the header read took in excess, at
  most 40 bytes (`EventReader.ReadData`, `ExcessBound`); a log that loses a byte is in `SmallMustTake` and
  `DropsSecondByte`.
- The writer of commit headers allows ten integers, but the reader accepts a header exactly when it is at most 45 bytes
  long (`ReadsHeaderExactlyWhen`); `LongHeaderRefused` has one of 46 bytes.
- Changing the global dbug settings under a running function can make a later early return of `FixTraceFlags` wrong
  (`GlobalChangeBreaksShortcut`); it is right exactly when every bit is the new default (`ShortcutRightWhen`).
- A control string with the depth or the processes but not the functions leaves the trace bits alone; under a rule for a
  subtree they stay right exactly when that makes no difference for any active function (`LeftAloneRightWhen`);
  `StaleAfterDepth` has a string after which they are wrong.
- Long lines are read in pieces. That happens under some schedule of reads exactly when a line does not leave a block of
  the largest buffer free (`WholeExactlyWhen`, `ReadLines`). In text mode putting the pieces together gives the lines
  back under every schedule exactly when no number of full pieces can end between a carriage return and its newline
  (`TextGluesExactlyWhen`, `ReadText`); `CarriageReturnStays` is a text of two characters that does not come back.
- A mysqlslap worker with a limit and no statement never ends, and every other one does (`RunTask`, `LimitIsMet`).
- Waiting for all connections of the pool returns exactly when every connection is free or in flight to be released
  (`Pool.WaitAll`); one that is kept, or that is in flight and will be kept, makes it wait for ever (`NeverFull`,
  `InFlightWithoutRelease`). Getting one connection waits for ever exactly when none comes back (`Pool.GetConnection`).
- Explaining dbug settings, pushing the result and explaining again gives the same string exactly when in no list a name
  is written down that is a prefix of one written before it (`ExplainRoundTrip`, `StableExactlyWhen`); `PrefixIsLost` and
  `BothIsLost` have control strings for which it does not.
- In the command line client a comment ends at its first end mark, and leaves nothing of itself behind, exactly when it
  holds no start mark of a server comment and no slash right in front of that end mark (`RemarkPassed`). Otherwise the
  comment goes on (`EndMarkMissed`), and in the first case the end mark even becomes part of the statement
  (`EndMarkKept`).
- A quoted name survives a short command exactly without backquotes and backslashes (`ShortNameComesThrough`).

## Model

| member | source | states |
|---|---|---|
| `CompressedInt.LengthSuffices` | mysys/my_compr_int.cc:34-45 | the number of bytes chosen for a 64-bit value is enough to hold it and its length bits |
| `CompressedInt.LengthIsLeast` | mysys/my_compr_int.cc:34-45 | no smaller number of bytes would hold them, but for 8, which is never used |
| `CompressedInt.ReadWrite` | mysys/my_compr_int.cc:34-118 | round trip: whatever bytes surround it, an integer that was written is read back as the same value, ending exactly where it was written to |
| `CompressedInt.ReadInPrefix` | mysys/my_compr_int.cc:85-118 | cutting the input at any place leaves a read unchanged if the integer ends before the cut, and makes it fail otherwise |
| `BinlogFormat.LocateAgain` | client/mysqlbinlog-engine.cc:401-446 | locating the next chunk from the place where it was found finds the same chunk, so skipped filler and page ends carry no state |
| `BinlogFormat.AfterIsLater` | client/mysqlbinlog-engine.cc:523-555 | the position after a chunk is later in the log than any position from which the chunk is found, and never where no chunk could start |
| `ChunkReading.ChunkReader.constructor` | client/mysqlbinlog-engine.cc:355-361 | a reader on the first position of a file, with the cache invariant: an open handle belongs to the current file |
| `ChunkReading.ChunkReader.FetchCurrentPage` | client/mysqlbinlog-engine.cc:1081-1142 | moves exactly to the position that holds the next page, over file ends and into later files, reports end of log if and only if the file is missing, and loads that very page |
| `ChunkReading.ChunkReader.GoNextFile` | client/mysqlbinlog-engine.cc:1119-1131 | closes the file and moves to page 1 of the next one; the page cache is dropped |
| `ChunkReading.ChunkReader.SkipCurrent` | client/mysqlbinlog-engine.cc:197-200 | marks the rest of the record as to be skipped only when inside one |
| `ChunkReading.ChunkReader.RestorePos` | client/mysqlbinlog-engine.cc:1145-1157 | after any reads and seeks in between, the reader is valid at exactly the saved position; the cached handle survives only if it is that of the saved file |
| `ChunkReading.ChunkReader.Seek` | client/mysqlbinlog-engine.cc:1160-1168 | what is read next is the record that the format assigns to that offset, independent of what was cached |
| `ChunkReading.TurnsAddUp` | client/mysqlbinlog-engine.cc:388-561 | the effects of successive turns of the read loop add up to one delivery from the record that was ahead |
| `ChunkReading.SoFarOn` | client/mysqlbinlog-engine.cc:388-561 | one more turn after those so far: together they deliver a front of the record that was ahead at first |
| `ChunkReading.SkippedChunk` | client/mysqlbinlog-engine.cc:447-473 | passing over a chunk of another record while skipping leaves the record ahead the same |
| `ChunkReading.EnteredChunk` | client/mysqlbinlog-engine.cc:486-490 | entering a chunk makes its bytes the front of the record ahead, across continuation chunks and nested records |
| `ChunkReading.CorruptChunk` | client/mysqlbinlog-engine.cc:447-484 | a chunk that the header checks refuse makes the record ahead broken |
| `ChunkReading.ChunkReader.TakeTurn` | client/mysqlbinlog-engine.cc:388-560 | one turn either fails only on a broken log, stops at the end of the log, or delivers a front part of the record ahead and moves on |
| `ChunkReading.ChunkReader.ReadData` | client/mysqlbinlog-engine.cc:381-561 | for every layout into chunks, pages and files with filler and nested records: a read delivers the next bytes of the record ahead and of no other record; when reading across chunks as many as fit or the record has, otherwise as many as fit or are left of the chunk, so that bytes and number depend on the position and the log only; the record is over exactly after its last byte; an error only on a broken log, 0 only at the end. What the record ahead is for bytes that were written is in BinlogWriting |
| `OobForest.UnfoldsToOne` | client/mysqlbinlog-engine.cc:214-274 | the links of a heap of nodes describe at most one tree at each address |
| `OobForest.ContentsAre` | client/mysqlbinlog-engine.cc:589-741 | the contents at an address are the recursive post-order of the tree that the links describe: earlier trees, left, right, then the node itself |
| `OobForest.Visit` | client/mysqlbinlog-engine.cc:673-707 | the recursion equations of the traversal: which parts a node contributes, in which order, and how many state changes it takes |
| `OobReading.HeaderFits` | client/mysqlbinlog-engine.cc:630-672 | the node header always fits the 45 bytes read for it, so looking only there gives the same links |
| `OobReading.DescendedKeeps` | client/mysqlbinlog-engine.cc:673-692 | descending into the links of a node keeps what is still to come |
| `OobReading.BackToSelf` | client/mysqlbinlog-engine.cc:694-707 | coming back from the right child keeps what is still to come: the node itself is next |
| `OobReading.OnToRight` | client/mysqlbinlog-engine.cc:699-702 | coming back from the left child keeps what is still to come: the right child is next |
| `OobReading.ReadOn` | client/mysqlbinlog-engine.cc:721-727 | reading on inside a record hands out a non-empty front of what is left of it and stays in that record |
| `OobReading.OobReader.constructor` | client/mysqlbinlog-engine.cc:564-567 | nothing is to come |
| `OobReading.OobReader.PushState` | client/mysqlbinlog-engine.cc:576-586 | a fresh entry on top of the stack |
| `OobReading.OobReader.StartTraversal` | client/mysqlbinlog-engine.cc:589-594 | what is to come is the post-order contents of the tree at the address, for every heap that describes a finite forest |
| `OobReading.OobReader.VisitNode` | client/mysqlbinlog-engine.cc:630-692 | reading a header and descending changes nothing that is to come, makes progress, and fails only when the very next thing is a fault |
| `OobReading.OobReader.Turn` | client/mysqlbinlog-engine.cc:626-707 | the same for every state change that hands out no data |
| `OobReading.OobReader.TakeSelf` | client/mysqlbinlog-engine.cc:709-727 | hands out a front part of what is left of the node, at least one byte, and tells exactly when header bytes stay behind at the end of the record |
| `OobReading.OobReader.EmitSelf` | client/mysqlbinlog-engine.cc:709-735 | hands out bytes of the node on top and pops it at the end of its record, dropping bytes if and only if the buffer is too small for what the header read took |
| `OobReading.OobReader.ReadData` | client/mysqlbinlog-engine.cc:606-741 | each call hands out the next bytes of the traversal and makes progress; bytes are dropped if and only if the buffer is smaller than what the header read took in excess |
| `OobReading.ExcessBound` | client/mysqlbinlog-engine.cc:711-734 | that excess is never more than 40 bytes, so a caller that always asks for 40 or more loses nothing |
| `EventReading.HeaderFitsExactly` | client/mysqlbinlog-engine.cc:877-957 | parsing a commit header out of the 45 bytes read for it succeeds exactly for headers of at most 45 bytes, and then gives the same links; longer ones are refused |
| `EventReading.NextOfFile` | client/mysqlbinlog-engine.cc:866-888 | the record that the next read finds is the one that continues the event groups of the file, and what has to be taken at once |
| `EventReading.EndOfFileTest` | client/mysqlbinlog-engine.cc:867-876 | the end-of-file test stops exactly when no record of the file is left |
| `EventReading.CommitFound` | client/mysqlbinlog-engine.cc:889-959 | a commit record whose header parses contributes its payload and then the data its links lead to |
| `EventReading.EventReader.constructor` | client/mysqlbinlog-engine.cc:831-852 | starting at an offset: what is to come are the event groups of the records from the place with that offset on, or from the start of page 1 for an offset in the header page, skipping a record that the offset falls into |
| `EventReading.EventReader.AtFileEnd` | client/mysqlbinlog-engine.cc:867-876 | whether the file is used up, in 32-bit offset arithmetic |
| `EventReading.EventReader.Examine` | client/mysqlbinlog-engine.cc:877-959 | a record that is not a commit record contributes nothing |
| `EventReading.EventReader.FindCommit` | client/mysqlbinlog-engine.cc:863-959 | finding the next commit record changes nothing that is to come; finding none means that nothing is to come |
| `EventReading.EventReader.AcceptCommit` | client/mysqlbinlog-engine.cc:889-959 | a parsed commit header sets up its links and loses no payload byte |
| `EventReading.EventReader.TakeCommit` | client/mysqlbinlog-engine.cc:961-981 | takes a front part of what is left of the commit payload, not empty unless nothing is left |
| `EventReading.EventReader.FinishCommit` | client/mysqlbinlog-engine.cc:983-1007 | after the payload, the first tree with data is next |
| `EventReading.EventReader.EmitCommit` | client/mysqlbinlog-engine.cc:961-1009 | hands out commit payload in order |
| `EventReading.EventReader.EmitOob` | client/mysqlbinlog-engine.cc:1011-1039 | hands out out-of-band data in order, with the exact condition for dropped bytes |
| `EventReading.EventReader.NextTree` | client/mysqlbinlog-engine.cc:1015-1032 | the second tree follows the first |
| `EventReading.EventReader.CommitTurn` | client/mysqlbinlog-engine.cc:866-1009 | data of the current or the next commit record, in order |
| `EventReading.EventReader.ReadData` | client/mysqlbinlog-engine.cc:855-1045 | each call hands out the next bytes of commit payload, first tree, second tree, for each commit record in log order; 0 exactly when nothing is left; bytes are dropped if and only if the buffer is smaller than what has to be taken at once, in whatever state the call starts, and so never for buffers of 40 bytes or more |
| `BinlogRuns.Drain` | client/mysqlbinlog-engine.cc:855-1045 | whole run, for every sequence of buffer sizes: it ends cleanly if and only if the log is sound; with sizes of at least 40 the concatenated output is all that was to come, or a front of it if the run does not end cleanly, and with smaller ones it is that with some bytes dropped |
| `BinlogRuns.ReadFile` | client/mysqlbinlog-engine.cc:831-1045 | opening a file at any offset and reading to the end outputs exactly the event groups of the commit records from the place with that offset on, in the same sense; an offset in the header page stands for the start of page 1 |
| `BinlogRuns.NestedPassed` | client/mysqlbinlog-engine.cc:461-473 | a record nested in another one is passed over whole when reading the outer one |
| `BinlogRuns.GoesOnIsSkipped` | client/mysqlbinlog-engine.cc:447-473 | whatever layout the rest of a record of any type has, with filler and nested records, a reader that starts inside it skips exactly to its end |
| `BinlogRuns.GoesOnIsRest` | client/mysqlbinlog-engine.cc:447-534 | for a record that may not be nested itself, that layout is what the reader takes as the rest of the record |
| `BinlogStarts.WalksMeet` | client/mysqlbinlog-engine.cc:388-561 | of two positions that walking from chunk to chunk reaches, one is reached from the other |
| `BinlogStarts.RecordWalks` | client/mysqlbinlog-engine.cc:447-534 | a boundary that walking reaches is inside the record that starts where the walk does, or is reached by walking from the end of that record |
| `BinlogStarts.PlainIsPartial` | client/mysqlbinlog-engine.cc:447-484 | in a file that reads record by record without a fault, skipping partial records delivers exactly what plain reading delivers |
| `BinlogStarts.SkipStep` | client/mysqlbinlog-engine.cc:447-473 | one step of skipping, over a chunk or over a whole record, goes on at a later boundary without losing a commit record |
| `BinlogStarts.StartAnywhere` | client/mysqlbinlog-engine.cc:831-852 | starting at any chunk boundary, between records or inside one of whatever type, delivers exactly the event groups of those commit records met by plain reading of the file whose first chunk is at the boundary or later |
| `BinlogStarts.StartInsideRecord` | client/mysqlbinlog-engine.cc:447-534 | starting inside any record, GTID state and dummy records included, delivers what plain reading delivers from the end of that record on |
| `BinlogStarts.ReadFromBoundary` | client/mysqlbinlog-engine.cc:831-1045 | the same for the output of a whole run from the boundary at a given offset, with any buffer sizes |
| `BinlogStarts.ReadWholeFile` | client/mysqlbinlog-engine.cc:831-1045 | from any offset in the header page, a run outputs all event groups of a file that reads without a fault: those met by plain reading from the start of page 1 |
| `OobWriting.ContentsKept` | storage/innobase/handler/innodb_binlog.cc:3101-3140 | appending to the log keeps what was readable readable, with the same contents |
| `OobWriting.AppendedLeaf` | storage/innobase/handler/innodb_binlog.cc:3023-3073 | adding a leaf keeps the invariant: the trees of the forest together hold the pieces in order, and each reads back through its links to earlier trees |
| `OobWriting.AppendedBranch` | storage/innobase/handler/innodb_binlog.cc:3011-3022 | joining the last two trees under a new node keeps that invariant |
| `OobWriting.AppendedDecreasing` | storage/innobase/handler/innodb_binlog.cc:2945-2963 | the heights stay strictly decreasing but for the last two trees |
| `OobWriting.FirstIsFull` | storage/innobase/handler/innodb_binlog.cc:2930-2963 | the trees are perfect: a tree of height h stands for at least 2^h - 1 pieces |
| `OobWriting.FewTrees` | storage/innobase/handler/innodb_binlog.cc:2913-2963 | a forest of n trees holds at least 2^(n-1) - 1 pieces, so the list of trees is logarithmic |
| `OobWriting.OobContext.constructor` | storage/innobase/handler/innodb_binlog.cc:108-198 | an empty forest |
| `OobWriting.OobContext.Append` | storage/innobase/handler/innodb_binlog.cc:2973-3081 | one piece more, with other transactions writing in between; the invariant is kept and savepoints are untouched |
| `OobWriting.OobContext.CreateSavepoint` | storage/innobase/handler/innodb_binlog.cc:3194-3210 | remembers the forest |
| `OobWriting.OobContext.RollbackTo` | storage/innobase/handler/innodb_binlog.cc:3212-3232 | gives back exactly the forest and the pieces of the savepoint, and drops later savepoints |
| `OobWriting.OobContext.ReadsBack` | storage/innobase/handler/innodb_binlog.cc:2913-2971 | end to end: after any appends and rollbacks, the post-order from the last root is exactly the pieces in order |
| `OobWriting.OobContext.ReadsBackFromLog` | storage/innobase/handler/innodb_binlog.cc:2913-2971 | the same for the traversal of any log that holds these records, whatever else it holds |
| `OobWriting.NodeRoundTrip` | storage/innobase/handler/innodb_binlog.cc:3126-3168 | the reader parses a node record that the writer wrote back to the same links and data |
| `BinlogLimits.CommitRoundTrip` | storage/innobase/handler/innodb_binlog.cc:329-423 | round trip: a commit header with no, one or two sets of links is parsed back to its counts and last addresses, whatever follows it |
| `BinlogLimits.ReadsHeaderExactlyWhen` | storage/innobase/handler/innodb_binlog.cc:329-423 | the reader, which looks at 45 bytes, gets the links of a written commit record if and only if its header is at most 45 bytes long, and refuses it otherwise |
| `BinlogLimits.LongHeaderRefused` | client/mysqlbinlog-engine.cc:877-957 | a complete header of 46 bytes, with offsets below 4 GiB, that the reader refuses |
| `BinlogRoundTrip.CommitReadsBack` | storage/innobase/handler/innodb_binlog.cc:329-423 | a commit record with no, one or two sets of out-of-band data stands for its payload and then the data of the sets, in order |
| `BinlogRoundTrip.WriterLeadsToData` | storage/innobase/handler/innodb_binlog.cc:2913-2971 | the links to the last root that the writer made for a transaction lead to its pieces in order, in any log that holds them |
| `BinlogRoundTrip.GroupsAreOutput` | client/mysqlbinlog-engine.cc:855-1045 | the event groups of a file that holds the commit records of given transactions are their payloads and out-of-band data in log order, whatever other records are between them |
| `BinlogRoundTrip.ReadTransactions` | client/mysqlbinlog-engine.cc:831-1045 | round trip: reading a file that holds transactions, from a place given by its offset, outputs each one from there on with its out-of-band data, in log order |
| `BinlogWriting.PlacedIsFound` | storage/innobase/fsp/fsp_binlog.cc:1728-1739 | the bytes of a chunk header and its data at a place are found there by the reader as a chunk of that kind with that data, both length bytes included |
| `BinlogWriting.FirstChunk` | storage/innobase/fsp/fsp_binlog.cc:1728-1756 | the first chunk of a record begins it: whatever is written behind it later, the record that is read from there is its type and data followed by the rest |
| `BinlogWriting.NextChunk` | storage/innobase/fsp/fsp_binlog.cc:1728-1756 | a continuation chunk continues the record, and the last one completes it at the place where the writer is |
| `BinlogWriting.StateChunk` | storage/innobase/handler/innodb_binlog.cc:2293-2380 | a chunk of a GTID state inside a record is passed over by its reader |
| `BinlogWriting.HoldsOneMore` | storage/innobase/fsp/fsp_binlog.cc:1549-1780 | a record that was written joins those that are read back one after the other from the start of the file |
| `BinlogWriting.BlankIsEnd` | storage/innobase/fsp/fsp_binlog.cc:1549-1780 | behind the place of the writer there is nothing to read |
| `BinlogWriting.EnoughPages` | storage/innobase/handler/innodb_binlog.cc:2293-2380 | the number of pages computed for a GTID state is enough for it |
| `BinlogWriting.BinlogWriter.constructor` | storage/innobase/fsp/fsp_binlog.cc:1549-1566 | an empty file, written from the start of page 1 |
| `BinlogWriting.BinlogWriter.PutChunk` | storage/innobase/fsp/fsp_binlog.cc:1728-1741 | writes type, flags, two length bytes and data at its place, and nothing before it |
| `BinlogWriting.BinlogWriter.WriteState` | storage/innobase/handler/innodb_binlog.cc:2293-2380 | writes a GTID state at the start of a page, in chunks; it is read back as one record, or passed over inside another one |
| `BinlogWriting.BinlogWriter.BeginPage` | storage/innobase/fsp/fsp_binlog.cc:1570-1690 | at the start of a page or file a GTID state that is due is written first; what is being written goes on |
| `BinlogWriting.BinlogWriter.Prepare` | storage/innobase/fsp/fsp_binlog.cc:1570-1712 | goes to the next page or file when there is no room for a chunk, with filler behind the last one |
| `BinlogWriting.BinlogWriter.FillPage` | storage/innobase/fsp/fsp_binlog.cc:1695-1712 | marks what is left of a page as filler |
| `BinlogWriting.BinlogWriter.PutPart` | storage/innobase/fsp/fsp_binlog.cc:1723-1757 | writes as much of a record as fits, with the flags that its place in the record asks for |
| `BinlogWriting.BinlogWriter.WriteRec` | storage/innobase/fsp/fsp_binlog.cc:1549-1780 | round trip of the chunk layer: for every type, data, place and number of pages, the reader gets from the returned start exactly the record of that type with that data, ending where the writer is; all that was written before is unchanged and still read back |
| `BinlogWriting.BinlogWriter.ReadsBack` | storage/innobase/fsp/fsp_binlog.cc:1549-1780 | after any writes, reading from the start of the file gives all records written, in order, and then the end |
| `BinlogEndToEnd.NodeWritten` | storage/innobase/handler/innodb_binlog.cc:3126-3168 | an out-of-band node written as a record is the node that the traversal finds at its address |
| `BinlogEndToEnd.FileIsHeld` | client/mysqlbinlog-engine.cc:855-1045 | the records of a file that the writer made are those that the reader of event groups meets, whether or not it skips partial records |
| `BinlogEndToEnd.ReadWritten` | client/mysqlbinlog-engine.cc:831-1045 | round trip from transactions to bytes to output: a run of the reader over the bytes that the writer laid out outputs every transaction with its out-of-band data, in commit order |
| `BinlogLimits.SmallMustTake` | client/mysqlbinlog-engine.cc:709-727 | a log of one page whose traversal has to take two bytes at once |
| `BinlogLimits.DropsSecondByte` | client/mysqlbinlog-engine.cc:709-735 | reading it one byte at a time: the first byte is delivered and the second one is lost |
| `DbugTracing.Tracer.constructor` | dbug/dbug.c:351-387 | no active function |
| `DbugTracing.Tracer.Rematch` | dbug/dbug.c:705-727 | every active function gets the bit that the elements of the lists say: that of the innermost function around it which is allowed by depth and process and whose first matching element is for a subtree and only includes or only excludes; without one, whether no function is to be included |
| `DbugTracing.LookupIs` | dbug/dbug.c:1540-1556 | a look-up gives the first element that matches; without one, whether all elements exclude, and whether a subtree element has only exclusions after it |
| `DbugTracing.RematchedByLinks` | dbug/dbug.c:705-727 | the bits that recomputing gives, told from the elements of the lists alone |
| `DbugTracing.ExactByLinks` | dbug/dbug.c:705-727 | the same for all active functions at once |
| `DbugTracing.TracedIs` | dbug/dbug.c:1707-1737 | whether a function is traced itself, told from the elements of the lists, the depth and the bit it inherits |
| `DbugTracing.Tracer.FixTraceFlags` | dbug/dbug.c:731-801 | either every bit is recomputed, or one of the early returns left all bits alone |
| `DbugTracing.ShortcutIsExact` | dbug/dbug.c:731-781 | every early return leaves exactly the bits that recomputing under the new list gives, for bits that agree with the old list |
| `DbugTracing.ShortcutRightWhen` | dbug/dbug.c:731-781 | for arbitrary bits, an early return is right if and only if every bit is already the default of the new list |
| `DbugTracing.GlobalChangeBreaksShortcut` | dbug/dbug.c:890-904 | a change of the global settings under a running function, which does not fix the bits, followed by another change: a concrete run after which an early return leaves a wrong bit |
| `DbugTracing.NoRuleAllDefault` | dbug/dbug.c:705-727 | without a rule for subtrees, recomputing gives every function the default bit |
| `DbugTracing.ExactIsConsistent` | dbug/dbug.c:745-763 | bits that a recomputation gave satisfy what the early returns rely on |
| `DbugTracing.Tracer.Enter` | dbug/dbug.c:1130-1175 | the function is on top with its name and the next level; whether it is traced is what the lists say; bits that were right are right afterwards, told from the lists |
| `DbugTracing.Tracer.Return` | dbug/dbug.c:1198-1239 | the function on top is gone and the level is that of its caller; whether it is traced is what the lists say; the bits stay right |
| `DbugTracing.Tracer.Configure` | dbug/dbug.c:822-861 | after a change of the settings that touched the function list, every bit is what recomputing gives; otherwise the bits are left alone |
| `DbugSettingsStack.SoleOwner` | dbug/dbug.c:200 | the test against the entry below is enough: a list it finds unshared, in the top or the bottom entry, is referred to by nobody else |
| `DbugSettingsStack.Inherited` | dbug/dbug.c:506-522 | a pushed entry that takes over the lists of the entry below keeps the ownership rules |
| `DbugSettingsStack.SettingsStack.constructor` | dbug/dbug.c:351-387 | only the global settings, writing to the error output |
| `DbugSettingsStack.SettingsStack.Release` | dbug/dbug.c:535-549 | a list is freed exactly when no other entry uses it, and every other entry keeps its lists |
| `DbugSettingsStack.SettingsStack.Unshare` | dbug/dbug.c:545-549 | a shared list is replaced by a copy of its own |
| `DbugSettingsStack.SettingsStack.Change` | dbug/dbug.c:550-565 | only the entry itself sees its list change |
| `DbugSettingsStack.SettingsStack.SwitchFile` | dbug/dbug.c:1930-2018 | the use counts stay equal to the number of entries that refer to each file, and a file is closed exactly when its last entry lets go |
| `DbugSettingsStack.SettingsStack.FreeState` | dbug/dbug.c:1620-1643 | everything the entry held is let go, and every other entry is unchanged |
| `DbugSettingsStack.SettingsStack.Begin` | dbug/dbug.c:473-523 | the settings that parsing starts from: none, those of the entry below, or the entry's own |
| `DbugSettingsStack.SettingsStack.CopyLists` | dbug/dbug.c:509-517 | lists of the global settings are copied, never shared |
| `DbugSettingsStack.SettingsStack.ApplyClear` | dbug/dbug.c:535-545 | a field that clears a list: it is freed unless shared, and no other entry changes |
| `DbugSettingsStack.SettingsStack.ApplyEdit` | dbug/dbug.c:545-565 | a field that edits a list edits a copy if the list is shared |
| `DbugSettingsStack.SettingsStack.ApplyOutput` | dbug/dbug.c:618-638 | a field that switches the output |
| `DbugSettingsStack.SettingsStack.Apply` | dbug/dbug.c:525-690 | one field changes the entry as it says and no other entry |
| `DbugSettingsStack.SettingsStack.Parse` | dbug/dbug.c:473-698 | the entry ends up with the edits of all fields applied to what it started from; every other entry is unchanged; no list is lost, freed twice or used after it is freed |
| `DbugSettingsStack.SettingsStack.Push` | dbug/dbug.c:852-861 | all entries below look as before, and the new one is what the control string makes of the settings that were current |
| `DbugSettingsStack.SettingsStack.Set` | dbug/dbug.c:822-832 | the same for changing the current entry in place |
| `DbugSettingsStack.SettingsStack.SetGlobal` | dbug/dbug.c:890-904 | the pushed entries look as before, and the global one is what the control string makes of it |
| `DbugSettingsStack.SettingsStack.Pop` | dbug/dbug.c:923-936 | the entries below look as before |
| `DbugSettingsStack.SettingsStack.Run` | dbug/dbug.c:822-936 | whole runs of push, set, global set and pop: an entry that is never popped nor changed itself is afterwards what it was, whatever was pushed, shared and freed above it |
| `DbugControl.ParseJoined` | dbug/dbug.c:525-698 | fields joined by colons are taken apart again into the same fields, paths with colons included |
| `DbugControl.AddsBack` | dbug/dbug.c:1423-1473 | reading back names that were written down appends exactly those links |
| `DbugControl.NumberOfDigits` | dbug/dbug.c:975-979 | a number that was written down reads back |
| `DbugControl.FieldsReadBack` | dbug/dbug.c:1030-1066 | applying the fields of an explanation to fresh settings gives the settings back, up to what is not in use, the level, and what reading back makes of each list |
| `DbugControl.ParseExplained` | dbug/dbug.c:1030-1066 | parsing an explanation gives these settings, for lists of any plain names, doubled colons and paths included |
| `DbugControl.ExplainRoundTrip` | dbug/dbug.c:1030-1066 | explaining, pushing the result and explaining again gives the same string if and only if in no list that is in use a name is written down that is a prefix of one written before it |
| `DbugControl.NamesComeBack` | dbug/dbug.c:1423-1473 | reading a list of plain names back gives the links that were written down if no name is a prefix of one written before it, and fewer links otherwise |
| `DbugStable.ParsePlain` | dbug/dbug.c:473-698 | whatever the control string, the lists it makes have names that can be written down |
| `DbugStable.StableExactlyWhen` | dbug/dbug.c:1030-1066 | the same condition for every control string whose numbers fit and whose output can be opened again: what it sets up survives being explained and pushed if and only if no name is a prefix of one written before it |
| `DbugStable.PrefixIsLost` | dbug/dbug.c:1447-1471 | a control string that excludes a name and then includes a longer one: what it sets up does not survive |
| `DbugStable.BothIsLost` | dbug/dbug.c:1447-1471 | a control string that excludes a name and then includes it: the link is for both, and is lost |
| `DbugStable.FlagSwitched` | dbug/dbug.c:584-690 | a flag is on after its letter and off after its letter with a minus sign, whatever came before, and nothing else changes |
| `DbugStable.SwitchedOff` | dbug/dbug.c:535-678 | the letters for keywords, functions, processes, depth and output with just a minus sign: the list is empty, tracing is off, or the output is the error output without flushing; nothing else changes |
| `DbugStable.DepthUndone` | dbug/dbug.c:659-678 | adding to the depth and taking the same number off gives the settings back |
| `DbugStable.FunctionUndone` | dbug/dbug.c:568-582 | adding a function that no link of the list starts with and taking it off gives the settings back |
| `DbugStable.ProcessUndone` | dbug/dbug.c:635-649 | the same for a process |
| `DbugStable.KeywordUndone` | dbug/dbug.c:535-567 | the same for a keyword, but that debugging stays on |
| `DbugControlCode.StrTok` | dbug/dbug.c:2084-2090 | finds the end of a field |
| `DbugControlCode.AddOne` | dbug/dbug.c:1447-1471 | changes, removes or appends the one link that the search selects |
| `DbugControlCode.ListAddDel` | dbug/dbug.c:1423-1473 | adds the comma separated names one after the other |
| `DbugControlCode.ParseField` | dbug/dbug.c:527-690 | does what the letter of the field says |
| `DbugControlCode.DbugParse` | dbug/dbug.c:525-698 | reads the fields in turn, up to the end or an empty field, and says whether one was for the list of functions |
| `DbugControlCode.DbExplain` | dbug/dbug.c:950-1066 | the explanation if it fits the buffer, and otherwise exactly as much as fits and three dots, and says which |
| `DbugControlCode.ParseKeepsSane` | dbug/dbug.c:473-698 | in all settings that come from control strings, tracing is on exactly when there is a depth, and standard output is flushed |
| `DbugControl.FunctionsKept` | dbug/dbug.c:568-582 | a control string without a field for functions leaves the list of functions alone |
| `DbugConfiguring.FlagsOfCopy` | dbug/dbug.c:745-763 | the flags that the early returns compare are those of any copy of the list, in whatever order |
| `DbugTracing.ExactIsLocal` | dbug/dbug.c:705-727 | recomputing changes nothing exactly when every active function has the bit that its rule makes of its caller's bit |
| `DbugTracing.LeftAloneRightWhen` | dbug/dbug.c:822-861 | right bits that are left alone when the depth or the processes change stay right if and only if, for each active function that starts or stops being traced, its rule does not change the bit it inherits |
| `DbugConfiguring.StaleAfterDepth` | dbug/dbug.c:822-861 | a control string that lowers the depth under a rule for a subtree, after which a bit is not what recomputing gives |
| `DbugConfiguring.Reconfigure` | dbug/dbug.c:822-861 | a control string parsed and put into effect under running functions: the bits are what recomputing gives if the string is not relative, has a field for functions or leaves no rule for subtrees, and otherwise exactly when the change makes no difference for any active function |
| `BatchReadline.LineBuffer.constructor` | client/readline.cc:81-92 | everything is unread, and the size that the buffer can grow to is fixed |
| `BatchReadline.LineBuffer.Grow` | client/readline.cc:139-152 | a buffer of twice the size with the same bytes |
| `BatchReadline.LineBuffer.FillBuffer` | client/readline.cc:126-193 | the bytes of the current line are kept and those read are added behind them, for every schedule of short reads; a last line without a newline gets one |
| `BatchReadline.LineBuffer.InternReadLine` | client/readline.cc:196-234 | the bytes up to and including the next newline, or a full buffer of a line that is too long; for reads that follow the lines, exactly where it is cut |
| `BatchReadline.LineBuffer.TakeOut` | client/readline.cc:31-48 | cuts the line end off and leaves everything unread unread |
| `BatchReadline.LineBuffer.ReadLine` | client/readline.cc:31-48 | the next line without its line end and everything after it still unread; or, only when the buffer cannot grow, a piece without a newline that leaves less than a block free; never more than the largest buffer |
| `BatchReadline.LineBuffer.ReadAll` | client/readline.cc:31-48 | reading to the end: each piece is a line or a cut piece of one that fits the largest buffer; for reads of single bytes, but for one of any size where the buffer gets full, exactly which pieces |
| `BatchReadline.PiecesMakeLines` | client/readline.cc:196-234 | in binary mode the pieces of long lines put together are the lines of the text |
| `BatchReadline.ReadLines` | client/readline.cc:31-48 | reading a file whose lines all leave a block of the largest buffer free gives the text split at newlines, for every schedule of short reads; with any other file, reads of single bytes cut a line |
| `BatchReadline.ShortLinesAreWhole` | client/readline.cc:31-48 | a text whose lines all leave a block of the largest buffer free is read as the text split at newlines, for every schedule of short reads |
| `BatchReadline.PlannedCuts` | client/readline.cc:126-234 | reads that follow the lines cut one if and only if some line is longer than that |
| `BatchReadline.WholeExactlyWhen` | client/readline.cc:126-234 | a text is read without cutting a line for every schedule if and only if all its lines are that short |
| `BatchReadline.TextGluesExactlyWhen` | client/readline.cc:31-48 | in text mode the pieces put together are the lines of the text for every reading if and only if no number of full pieces can end between a carriage return and its newline: a condition on the text and the largest buffer |
| `BatchReadline.UnsafeIsBad` | client/readline.cc:126-234 | for every other text there is a schedule of reads, of single bytes but for the ones that fill the buffer, that cuts a line between its carriage return and its newline |
| `BatchReadline.ReadText` | client/readline.cc:31-48 | reading a file in text mode: under this condition the pieces put together are its lines for every schedule; without it, there is a schedule for which they are not |
| `BatchReadline.CarriageReturnStays` | client/readline.cc:31-48 | a carriage return and a newline read byte by byte with a buffer of one block: the carriage return is kept |
| `BatchReadline.LinesComeBack` | client/readline.cc:31-48 | splitting a file that was written from lines, each with either line end and the last perhaps without one, gives the lines back |
| `SlapScheduling.MasterKeepsCounter` | client/mysqlslap.c:1783-1852 | every step of the master keeps the count |
| `SlapScheduling.WorkerKeepsCounter` | client/mysqlslap.c:2008-2013 | every step of a worker keeps the count |
| `SlapScheduling.MasterKeepsEnd` | client/mysqlslap.c:1837-1847 | the master leaves its loop only when every worker is finished, because it looks at the counter under the mutex |
| `SlapScheduling.MasterKeepsGate` | client/mysqlslap.c:1806-1834 | every step of the master keeps the gate invariant, the broadcast included |
| `SlapScheduling.WorkerKeepsGate` | client/mysqlslap.c:1868-1873 | every step of a worker keeps the gate invariant |
| `SlapScheduling.RunInv` | client/mysqlslap.c:1783-2016 | the invariant holds after every interleaving of the master and any number of workers |
| `SlapScheduling.NobodyStartsEarly` | client/mysqlslap.c:1868-1873 | in every interleaving, a worker past the gate means that the master has opened it and that all workers have been started |
| `SlapScheduling.CounterIsExact` | client/mysqlslap.c:1803-1822 | in every interleaving, when the counter mutex is free the counter is the number of workers that have started and not finished |
| `SlapScheduling.ReturnsAfterAll` | client/mysqlslap.c:1837-1847 | in every interleaving, when the master has returned every worker is finished and holds no mutex |
| `SlapScheduling.ContextOutlivesUse` | client/mysqlslap.c:1783-1852 | in every interleaving, no worker uses the context on the master's stack after the master has returned |
| `SlapScheduling.SomebodyMoves` | client/mysqlslap.c:1837-1847 | no lost wake-up: while the counter is not zero, some worker can move |
| `SlapScheduling.CanReturn` | client/mysqlslap.c:1783-2016 | no deadlock: from every reachable state there is a continuation, without spurious wake-ups, in which the master returns |
| `SlapTask.RunTask` | client/mysqlslap.c:1855-2016 | the actions of a worker, reconnections, commits and failing connections included, looked at after any number of passes: a front of its task, all of it once it has ended; a worker that gets its connection ends if and only if there is no limit or a statement to run, and then within as many passes as the limit says |
| `SlapTask.RunStatements` | client/mysqlslap.c:1901-2000 | passes over the statements: after k of them as many queries are done as k passes make, and the loop is over exactly when they make the limit |
| `SlapTask.OnePass` | client/mysqlslap.c:1906-1998 | one pass, which ends the run when the limit is met or a reconnection fails, and otherwise adds one query for each statement |
| `SlapTask.RunOne` | client/mysqlslap.c:1910-1995 | reconnects before a statement and commits after it exactly when that is due, and the commit counter is the number of queries modulo the rate |
| `SlapTask.RunsExactly` | client/mysqlslap.c:1906-2000 | a worker whose connections succeed runs exactly as many statements as the limit says, the j-th being statement j modulo their number, and each once without a limit |
| `SlapTask.LimitIsMet` | client/mysqlslap.c:1999-2000 | the passes that RunStatements makes come to the limit for some number of them if and only if there is a statement to run; otherwise they never end |
| `SlapTask.FromPaced` | client/mysqlslap.c:1985-1995 | each commit of a worker comes after exactly as many queries since the one before as the rate says |
| `SlapTask.FromReconnected` | client/mysqlslap.c:1910-1930 | a worker reconnects right before those statements whose number is a multiple of the rate, and nowhere else |
| `SlapTask.WorkerPace` | client/mysqlslap.c:1855-2016 | all of a task: automatic commits off first, commits after every so many queries, and one more at the end; without a rate no commits |
| `ConnectionPool.Pool.constructor` | client/connection_pool.cc:164-188 | every connection is free |
| `ConnectionPool.Pool.CompleteQuery` | client/connection_pool.cc:146-157 | calls the handler of this connection with its own query and context and frees it if it is to be released; what is owed to others is unchanged |
| `ConnectionPool.Pool.WaitForCompletions` | client/connection_pool.cc:119-144 | completes exactly the connections that became ready, at least one; it waits for ever if and only if nothing is in flight |
| `ConnectionPool.Pool.GetConnection` | client/connection_pool.cc:44-51 | a free connection, after waiting for one if need be; it waits for ever if and only if no connection is free or in flight to be released |
| `ConnectionPool.Pool.ExecuteAsync` | client/connection_pool.cc:190-210 | a query that is sent is in flight on one connection with its own data; one that could not be sent leaves the connection free and is owed nothing; it waits for ever if and only if no connection comes back |
| `ConnectionPool.Pool.WaitAll` | client/connection_pool.cc:216-220 | returns if and only if every connection is free or in flight to be released; then nothing is in flight, every connection is free, and every accepted query was answered exactly once |
| `ConnectionPool.AllFree` | client/connection_pool.cc:216-220 | the queue is as long as the pool if and only if no connection is in flight or kept by its handler |
| `ConnectionPool.CompletionKeeps` | client/connection_pool.cc:146-157 | whether a connection comes back is settled when its query is sent: completions change it for no connection, in either direction |
| `ConnectionPool.NeverFull` | client/connection_pool.cc:216-220 | after any completions the queue can be full only if every connection was to come back at first, those in flight included |
| `ConnectionPool.InFlightWithoutRelease` | client/connection_pool.cc:216-220 | one query in flight that keeps its connection: nothing is kept yet, and still the queue is never full |
| `ConnectionPool.StillInFlight` | client/connection_pool.cc:216-220 | while the queue is not full and every connection comes back, something is in flight |
| `ConnectionPool.Pool.CompleteReady` | client/connection_pool.cc:119-144 | completes the connections that poll reports; the count of ready ones always comes out at zero |
| `ConnectionPool.SomethingInFlight` | client/connection_pool.cc:44-51 | an empty queue and a connection that comes back mean that something is in flight |
| `CompletionHash.TableUpdated` | client/completion_hash.cc:60-109 | the table invariant: each key once, in the chain that its hash selects, with the right count and entries |
| `CompletionHash.HashTable.constructor` | client/completion_hash.cc:42-57 | an empty table |
| `CompletionHash.HashTable.FindIn` | client/completion_hash.cc:111-133 | finds a key exactly when the table holds it, for any hash function |
| `CompletionHash.HashTable.Update` | client/completion_hash.cc:60-109 | puts a word in front of the entries of a key; fails for the empty key only |
| `CompletionHash.HashTable.AddWord` | client/completion_hash.cc:220-226 | afterwards the table is that of all words added so far: each non-empty prefix leads to the words with it |
| `CompletionHash.HashTable.FindAllMatches` | client/completion_hash.cc:158-171 | exactly the words with the prefix, the newest first, with their number; nothing for the empty prefix |
| `CompletionHash.FewerMatches` | client/completion_hash.cc:173-202 | a longer prefix matches fewer words, and as many if and only if all the matches have it |
| `CompletionHash.HashTable.FindLongestMatch` | client/completion_hash.cc:173-202 | the length of the longest common prefix of all words that match, and the entries for it |
| `CompletionGenerating.Generator.constructor` | client/mysql.cc:3087-3094 | nothing in progress |
| `CompletionGenerating.Generator.NextUsedRow` | client/mysql.cc:3120-3132 | goes to the first used chain and skips nothing that has words |
| `CompletionGenerating.Generator.NextUsedEntry` | client/mysql.cc:3138-3157 | goes to the next entry, bucket or chain; the rest of the enumeration is what it was without this entry |
| `CompletionGenerating.Generator.NextWhole` | client/mysql.cc:3133-3160 | the next entry that is a word and not only a prefix |
| `CompletionGenerating.Generator.StartMatch` | client/mysql.cc:3100-3108 | starts with the newest word that has the prefix; without one the entry of an enumeration before stays |
| `CompletionGenerating.Generator.NextMatch` | client/mysql.cc:3110-3115 | hands out one match |
| `CompletionGenerating.Generator.Next` | client/mysql.cc:3087-3162 | one word at a time: what was to come is the word handed out and what is to come; starting over is possible at any time |
| `CompletionGenerating.Generator.All` | client/mysql.cc:3087-3162 | asking until nothing is left gives all completions |
| `CompletionGenerating.EveryWordOnce` | client/mysql.cc:3117-3162 | for the empty text these are all non-empty words, each exactly as many times as it was added |
| `CommandArgument.CheckScan` | client/mysql.cc:5088-5108 | walking over an argument tells whether there is one, without changing the line |
| `CommandArgument.ShiftLeft` | client/mysql.cc:5097-5098 | moves the rest of the line one to the left |
| `CommandArgument.TakeScan` | client/mysql.cc:5088-5108 | takes the escapes out in place: the argument, a NUL, and then the text after it, unchanged |
| `CommandArgument.FindArgument` | client/mysql.cc:5059-5087 | finds the start of the argument after the command and an opening quote |
| `CommandArgument.GetArg` | client/mysql.cc:5053-5109 | checking and getting accept exactly the same lines, those with an argument; getting leaves the argument without escapes in the line; what arguments are is in ArgumentForms |
| `CommandArgument.GetNext` | client/mysql.cc:5060-5065 | the argument after the one taken before |
| `CommandArgument.QuoteIdentifier` | client/mysqlimport.cc:484-497 | doubles the backquotes between two backquotes |
| `CommandArgument.NameComesThrough` | client/mysql.cc:5053-5109 | round trip: after a long command, a quoted name of any characters is taken as exactly that name, and what follows it is left |
| `CommandArgument.ShortNameComesThrough` | client/mysql.cc:5053-5109 | after a short command, a quoted name is taken as exactly that name if and only if it holds neither a backquote nor a backslash |
| `ArgumentForms.ScanEncoded` | client/mysql.cc:5088-5108 | however a name is written with a quote or without one, with backslashes or doubled quotes, scanning it up to its end gives it back, and leaves what is after it |
| `ArgumentForms.ScanUnclosed` | client/mysql.cc:5088-5108 | without its end, all of it is scanned and it counts as not closed |
| `ArgumentForms.QuotedComesThrough` | client/mysql.cc:5053-5109 | round trip for all three quotes, after long and short commands: the name comes through, and what follows its quote is left for the next argument |
| `ArgumentForms.UnclosedIsRefused` | client/mysql.cc:5053-5109 | an argument whose quote is not closed is refused |
| `ArgumentForms.WordComesThrough` | client/mysql.cc:5053-5109 | an argument without quotes goes up to the first space that is not escaped, or to the end of the line, and what follows is left |
| `ArgumentForms.GetTwo` | client/mysql.cc:5053-5109 | two words behind a command are taken one after the other |
| `LineScanning.Scanner.constructor` | client/mysql.cc:2632-2645 | no string and no comment is open |
| `LineScanning.Scanner.Execute` | client/mysql.cc:2778-2790 | what is sent is the buffer; what comes back is the reply to this number |
| `LineScanning.Scanner.MultiByte` | client/mysql.cc:2661-2677 | a multi-byte character is kept as it is, or dropped in a comment |
| `LineScanning.Scanner.Backslash` | client/mysql.cc:2678-2747 | in a string a backslash and the next character are kept; outside it is a command or a null value; the writer stays behind the reader in every case |
| `LineScanning.Scanner.TakeCommand` | client/mysql.cc:2699-2747 | a command is executed on what was accepted; an unknown one is kept as text, or makes the client quit |
| `LineScanning.Scanner.SkipParameters` | client/mysql.cc:2712-2736 | goes to the first end of line, end of server comment or delimiter, and past a delimiter |
| `LineScanning.Scanner.AtDelimiter` | client/mysql.cc:2748-2790 | sends the statement collected so far and goes on behind the delimiter with an empty buffer; with preserved comments the white space behind it and a comment to the end of the line are sent with it, and nothing else |
| `LineScanning.Scanner.KeepSpaces` | client/mysql.cc:2753-2757 | keeps exactly the white space, in order, behind what was written |
| `LineScanning.Scanner.LineComment` | client/mysql.cc:2791-2836 | a comment to the end of the line: dropped, added to the statement, or sent at once if there is none |
| `LineScanning.Scanner.CommentMark` | client/mysql.cc:2837-2874 | opens or closes a comment; a string and a comment are never open together |
| `LineScanning.Scanner.Put` | client/mysql.cc:2897-2903 | writes the character behind what was written, with a space in front exactly when one is due and the character is no space |
| `LineScanning.Scanner.Ordinary` | client/mysql.cc:2875-2904 | writes the character, with a space in front if one is due, and follows quotes and server comments |
| `LineScanning.Scanner.Step` | client/mysql.cc:2650-2905 | one round does what the lexer says of the character, in terms of text alone; whatever the character, the options and the server modes, the writer never overtakes the reader, a space that is due has room, and the part of the line still to be read is not written to |
| `LineScanning.Scanner.FinishLine` | client/mysql.cc:2906-2931 | a newline unless the line was cut off or sets the delimiter, and all to the buffer unless in a comment |
| `LineScanning.Scanner.AddLine` | client/mysql.cc:2632-2931 | for every line, state, option, command table, character set and sequence of replies: what is sent, in which order, the buffer, the settings and what is left open are what the lexer says; nothing behind the line is written to; a line inside a string is kept as it is |
| `LineLexing.StringKept` | client/mysql.cc:2875-2904 | a line inside a string that it does not close is kept whole and sends nothing |
| `LineStatements.TextFed` | client/mysql.cc:2875-2904 | text without quotes, backslashes, comment starts and delimiters is accepted character by character |
| `LineStatements.FedIs` | client/mysql.cc:2654-2660 | such text is added as it is, but for white space at the front of a statement |
| `LineStatements.FedAfterComment` | client/mysql.cc:2897-2903 | text behind a comment is separated by exactly one space, unless it starts with one |
| `LineStatements.BodyKept` | client/mysql.cc:2875-2904 | inside a string everything is kept, delimiters and comment marks included; escapes hide its quote exactly where the quote and the modes of the server allow them |
| `LineStatements.RemarkSkipped` | client/mysql.cc:2854-2904 | inside a comment that is not preserved nothing is kept and nothing is sent |
| `LineStatements.EndMarkMissed` | client/mysql.cc:2837-2874 | the first end mark of a comment does not end it if there is a slash in front of it inside the comment: the comment goes on |
| `LineStatements.EndMarkKept` | client/mysql.cc:2875-2893 | with the start mark of a server comment inside, the first end mark of a comment is kept as text and does not end it |
| `LineStatements.RemarkPassed` | client/mysql.cc:2837-2904 | any other comment that is not preserved is passed over up to its first end mark: nothing of it is kept or sent, and a space is due behind it |
| `LineStatements.RemarkPreserved` | client/mysql.cc:2837-2874 | a preserved comment is kept as it is, and a space is due behind it all the same |
| `LineStatements.CommentPreserved` | client/mysql.cc:2805-2833 | a preserved comment up to the end of the line is kept behind a statement, and sent if it is on its own |
| `LineStatements.ServerKept` | client/mysql.cc:2875-2893 | a comment for the server is kept; in a hint neither quotes nor delimiters count |
| `LineStatements.SegmentsPassed` | client/mysql.cc:2650-2905 | a text made of words, null values, multi-byte characters, strings, comments and comments for the server: all is accepted but the comments, and nothing is sent |
| `LineStatements.DelimiterSends` | client/mysql.cc:2748-2790 | at a delimiter what was accepted is sent, and the next statement starts right behind it |
| `LineStatements.DelimiterSendsMore` | client/mysql.cc:2753-2790 | with preserved comments, white space and a comment behind the delimiter are sent too |
| `LineStatements.CommandSees` | client/mysql.cc:2699-2736 | a command with a backslash gets what was accepted; its parameters up to the delimiter are passed over, and the line goes on with the buffer it leaves |
| `LineStatements.BareCommandSees` | client/mysql.cc:2699-2711 | the same for a command without parameters |
| `LineStatements.UnknownCommandKept` | client/mysql.cc:2738-2746 | an unknown command is kept as text, unless it makes the client quit |
| `LineStatements.StatementsSent` | client/mysql.cc:2650-2905 | every statement of a line that ends with a delimiter is sent, once and in order, and nothing else |
| `LineStatements.EndKept` | client/mysql.cc:2791-2904 | behind the last delimiter nothing is sent: a comment up to the end of the line is dropped, and an open string or comment stays open with its delimiters unseen |
| `LineStatements.LineSent` | client/mysql.cc:2632-2931 | a whole line, which may start inside a string or comment and end inside one: exactly its statements are sent |
| `LineStatements.SettingDelimiter` | client/mysql.cc:2906-2923 | which lines set the delimiter: those with that word in front, in any mixture of cases |
| `LineStatements.AddText` | client/mysql.cc:2632-2931 | the same of AddLine: the statements of the line join what was sent, the rest of it is in the buffer with a newline, and nothing of a comment that is not preserved is in either |
| `LineStatements.AddStatement` | client/mysql.cc:2632-2931 | a line that starts with plain text and a delimiter, whatever follows: the first to be sent is the old buffer and that text, without white space at its front if the buffer was empty |

## Left out

- Page checksums, file header checks and file names: a page is readable or not, and a missing file is the end of the log.
- Truncated logs: bytes already copied when the log ends inside a record are dropped by the code and not followed here; a run over such a log is excluded as torn.
- OobReading.OobReader.StartTraversal: stated for heaps whose links describe a finite forest; on a cycle the traversal does not end.
- EventReading.EventReader.constructor: logs with a torn record further on and offsets of 4 GiB and more are not covered.
- BinlogRuns.ReadFile: the same; for buffers of less than 40 bytes it is not stated which bytes of a whole run are dropped, only when a call drops some (EventReader.ReadData).
- BinlogRuns.Drain: the same for those buffers.
- BinlogStarts.StartAnywhere: stated for files in which every record is complete, those nested in others included.
- BinlogStarts.ReadFromBoundary: the same, for logs without a torn record in out-of-band data.
- BatchReadline.LineBuffer.constructor: the first buffer has at least one block, as its only caller asks for (client/mysql.cc:1286).
- Several files on one command line: reopening a reader on the next file keeps the old page and offset (client/mysqlbinlog-engine.cc:837-843); each run here is over one file and what its links lead to.
- The check of the in-page offset on a page that has been loaded (client/mysqlbinlog-engine.cc:419) cannot fire and is not repeated.
- Binlog files of 4 GiB and more: offsets are computed in 32 bits, and the model is stated below that size.
- BinlogWriting.BinlogWriter.WriteState: stated for GTID states below 16 MiB, so that the number of pages computed for them is enough; a state is written at the start of a page, and which one is due there is arbitrary.
- BinlogWriting.BinlogWriter.WriteRec: the pages written are those of the log; the buffer pool, mini-transactions and recovery of the server are not part of this model. Empty records, which the writer is never asked for, are not covered.
- BinlogEndToEnd.ReadWritten: stated for a log of one file, with offsets in its header page; ReadTransactions covers logs of several files.
- Files whose first new record is not a GTID state record: the writer puts one there, and the end-of-file test relies on it.
- DbugSettingsStack.SettingsStack.Unshare: that a copied list is in reverse order is not stated.
- DbugSettingsStack.SettingsStack.Parse: lists are multisets of names there, because copying a list reverses it; the exact effect of a field on an ordered list is in DbugControl.
- DbugStable.StableExactlyWhen: stated for delays and depths below 2^31, and for an output that can be opened again.
- DbugConfiguring.Reconfigure: the exact condition is for a list of functions that is shared and not copied in another order.
- DbugTracing.Tracer.Configure: names are matched by an arbitrary function instead of `fnmatch`.
- Mutexes in dbug: the settings are those of one thread.
- The word-wise memory access of the compressed integers (mysys/my_compr_int.cc:47-76): the bytes they come to are modelled.
- Allocation failure, everywhere.
- DbugControlCode.DbExplain: buffers of at most four characters are not covered.
- SlapTask.RunTask: a failing query ends the whole program and is not followed; the choice of a random key is not part of an action.
- ConnectionPool.Pool.CompleteQuery: handlers that use the pool themselves are not covered; the completion ports of Windows are not part of this model.
- CompletionGenerating.Generator.Next: the table does not change while words are handed out.
- completion_hash_exists, which compares with the word that first made the bucket, and hashpjw: any hash function is allowed.
- CommandArgument.FindArgument: a line that ends right after the backslash of a short command is not covered; the callers pass commands that were found by their letter.
- CommandArgument.GetArg: the same; white space is that of single-byte character sets.
- LineScanning.Scanner.AddLine: of a line that starts with a NUL while the buffer is empty, which the code ignores, and of the place of the final newline in the line itself, if that ends with a backslash inside a string in binary mode, nothing is claimed.
- LineStatements.AddText: stated for comments that are not preserved; for preserved ones the pieces are stated one by one (RemarkPreserved, CommentPreserved, DelimiterSendsMore). Lines with commands are stated piece by piece too (CommandSees).
- Liveness under fair scheduling in mysqlslap: CanReturn shows that the end can always be reached, not that every schedule reaches it.
- Event filtering and printing in mysqlbinlog, regular expressions in mariadb-import, character set conversion, options, prompts and the remaining client programs: thin wrappers or library calls that would only add easy members.
