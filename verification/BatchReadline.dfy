/** Reading lines in batch mode through a buffer that is filled by short reads, shifted down, and
    grown up to a limit.
  */
module BatchReadline {

  const IO_SIZE: nat := 4096

  // ----- what reading lines means -----

  /** The first line of `text` and what follows it. A line ends with a newline, which is dropped, as
      is one carriage return before it unless in binary mode; the last line may lack the newline. */
  function FirstLine(text: string, binary: bool): (string, string) {
    var k := Newline(text);
    if k == |text| then (text, []) else (Chomp(text[..k], binary), text[k + 1..])
  }

  /** The position of the first newline, or the length of the text. */
  function Newline(text: string): (k: nat)
    ensures k <= |text| && '\n' !in text[..k]
    ensures k < |text| ==> text[k] == '\n'
  {
    if text == [] || text[0] == '\n' then 0 else 1 + Newline(text[1..])
  }

  function Chomp(line: string, binary: bool): string {
    if line != [] && !binary && line[|line| - 1] == '\r' then line[..|line| - 1] else line
  }

  function Split(text: string, binary: bool): seq<string>
    decreases |text|
  {
    if text == [] then [] else [FirstLine(text, binary).0] + Split(FirstLine(text, binary).1, binary)
  }

  lemma NewlineIs(text: string, k: nat)
    requires k <= |text| && '\n' !in text[..k] && (k < |text| ==> text[k] == '\n')
    ensures Newline(text) == k
  {
    if k > 0 {
      assert text[0] == text[..k][0] && text[1..][..k - 1] == text[..k][1..];
      NewlineIs(text[1..], k - 1);
    }
  }

  /** The size that a buffer of size `b` has when it must not grow any more. */
  function Limit(b: nat, maxSize: nat): (limit: nat)
    requires b > 0
    ensures b <= limit && (limit == b || limit <= maxSize) && 2 * limit > maxSize
    decreases maxSize - b
  {
    if 2 * b > maxSize then b else Limit(2 * b, maxSize)
  }

  lemma LimitReached(b: nat, maxSize: nat)
    requires b > 0 && 2 * b > maxSize
    ensures Limit(b, maxSize) == b
  {
  }

  /** How much a read of at most `max` bytes delivers when `left` bytes are left and `size + 1` are asked for. */
  function Amount(size: nat, max: nat, left: nat): (n: nat)
    requires max > 0
    ensures n <= max && n <= left && (n == 0 <==> left == 0) && (size < max && size < left ==> n == size + 1)
  {
    var limit := if max < left then max else left;
    if limit == 0 then 0 else 1 + size % limit
  }

  class LineBuffer {
    const sizes: nat -> nat         // how much a read delivers, by how much is left of the file
    var rest: string                // what has not been read from the file
    var buffer: array<char>
    var end: nat
    var startOfLine: nat
    var endOfLine: nat
    var bufread: nat
    var maxSize: nat
    var eof: bool
    var truncated: bool
    var readLength: nat

    /** The offsets are in order, and the buffer has one byte to spare. */
    ghost predicate Shape()
      reads this
    {
      && IO_SIZE <= bufread && buffer.Length == bufread + 1
      && startOfLine <= endOfLine <= end <= bufread
    }

    ghost predicate Valid()
      reads this
    {
      Shape() && (eof ==> rest == [] && endOfLine == end)
    }

    /** The size up to which the buffer can grow. */
    ghost function Most(): nat
      requires Shape()
      reads this
    {
      Limit(bufread, maxSize)
    }

    /** A read with `r` bytes left delivers what `sizes` asks for, if that is possible at all. */
    ghost predicate AsAsked(n: nat, r: nat) {
      sizes(r) < IO_SIZE && sizes(r) < r ==> n == sizes(r) + 1
    }

    /** Nothing is buffered beyond what was handed out, and the reads to come follow the lines. */
    ghost predicate Steady()
      requires Shape()
      reads this
    {
      endOfLine == end && Follows(sizes, rest, Most())
    }

    /** What of the file has not been handed out yet. */
    ghost function Unread(): string
      requires Valid()
      reads this, buffer
    {
      buffer[endOfLine..end] + rest
    }

    constructor (text: string, size: nat, maxSize: nat, sizes: nat -> nat)
      requires IO_SIZE <= size
      ensures Valid() && Unread() == text && fresh(buffer) && this.sizes == sizes && this.maxSize == maxSize
      ensures bufread == size && endOfLine == end && Most() == Limit(size, maxSize)
    {
      this.sizes := sizes;
      rest := text;
      bufread := size;
      this.maxSize := maxSize;
      buffer := new char[size + 1](_ => '\0');
      end, startOfLine, endOfLine := 0, 0, 0;
      eof, truncated, readLength := false, false, 0;
    }

    lemma NothingBuffered()
      requires Valid()
      ensures endOfLine == end ==> Unread() == rest
    {
      assert endOfLine == end ==> buffer[endOfLine..end] == [] && [] + rest == rest;
    }

    /** Makes the buffer larger, keeping the bytes from the start of the line on. */
    method Grow()
      requires Shape()
      modifies this`buffer, this`bufread
      ensures fresh(buffer) && bufread == 2 * old(bufread) && buffer.Length == bufread + 1
      ensures forall i :: 0 <= i <= old(bufread) ==> buffer[i] == old(buffer[i])
    {
      var was := buffer;
      bufread := 2 * bufread;
      var grown := new char[bufread + 1](_ => '\0');
      forall i | 0 <= i < was.Length {
        grown[i] := was[i];
      }
      buffer := grown;
    }

    /** A read from the file: at least one byte, at most `max`, unless the file is at its end. */
    method ReadInto(at: nat, max: nat) returns (n: nat)
      requires at + max < buffer.Length && max > 0
      modifies this`rest, buffer
      ensures n <= max && (n == 0 <==> old(rest) == []) && (max >= IO_SIZE ==> AsAsked(n, |old(rest)|))
      ensures n <= |old(rest)| && rest == old(rest)[n..]
      ensures forall i :: 0 <= i < n ==> buffer[at + i] == old(rest)[i]
      ensures forall i :: 0 <= i < at ==> buffer[i] == old(buffer[i])
    {
      n := Amount(sizes(|rest|), max, |rest|);
      forall i | 0 <= i < n {
        buffer[at + i] := rest[i];
      }
      rest := rest[n..];
    }

    /** Shifts the current line to the start of the buffer. */
    method ShiftDown(bufbytes: nat)
      requires startOfLine + bufbytes <= bufread && buffer.Length == bufread + 1
      modifies buffer
      ensures forall i :: 0 <= i < bufbytes ==> buffer[i] == old(buffer[startOfLine + i])
    {
      if startOfLine != 0 {
        var line := buffer[startOfLine..startOfLine + bufbytes];
        forall i | 0 <= i < bufbytes {
          buffer[i] := line[i];
        }
      }
    }

    /** Fills the buffer behind the current line. Returns the number of bytes added; 0 at the end of
        the file, or when the buffer is full and must not grow. A last line without a newline gets one. */
    method FillBuffer() returns (n: nat)
      requires Valid()
      modifies this, buffer
      ensures Shape() && (buffer == old(buffer) || fresh(buffer)) && maxSize == old(maxSize) && Most() == old(Most())
      ensures n > 0 ==> endOfLine + IO_SIZE <= bufread && (!eof ==> AsAsked(n, |old(rest)|))
      ensures n == 0 && (old(eof) || !eof) ==> unchanged(this) && buffer[..] == old(buffer[..])
      ensures n == 0 && !eof ==> end - startOfLine > bufread - IO_SIZE && 2 * bufread > maxSize
      ensures old(eof) ==> n == 0
      ensures n > 0 || (eof && !old(eof)) ==>
                && startOfLine == 0 && endOfLine == old(end - startOfLine) && end == endOfLine + n
                && buffer[..endOfLine] == old(buffer[startOfLine..end])
      ensures eof && !old(eof) ==>
                && rest == [] && old(rest) == []
                && (if endOfLine == 0 || buffer[endOfLine - 1] == '\n' then n == 0 else n == 1 && buffer[endOfLine] == '\n')
      ensures n > 0 && !eof ==> buffer[endOfLine..end] + rest == old(rest)
    {
      if eof {
        return 0;
      }
      var bufbytes := end - startOfLine;
      var count := MakeRoom(bufbytes);
      if count == 0 {
        return 0;
      }
      n := Load(bufbytes, count);
    }

    /** The number of bytes to read, in whole blocks; grows the buffer when it is too full. */
    method MakeRoom(bufbytes: nat) returns (count: nat)
      requires Valid() && bufbytes == end - startOfLine
      modifies this`buffer, this`bufread
      ensures Shape() && (buffer == old(buffer) || fresh(buffer)) && Most() == old(Most())
      ensures count == 0 ==> buffer == old(buffer) && bufread == old(bufread)
      ensures count == 0 ==> bufbytes > bufread - IO_SIZE && 2 * bufread > maxSize
      ensures count > 0 ==> count >= IO_SIZE && bufbytes + count <= bufread
      ensures buffer[startOfLine..startOfLine + bufbytes] == old(buffer[startOfLine..startOfLine + bufbytes])
    {
      ghost var line := buffer[startOfLine..startOfLine + bufbytes];
      count := (bufread - bufbytes) / IO_SIZE * IO_SIZE;
      while count == 0
        invariant Shape() && count == (bufread - bufbytes) / IO_SIZE * IO_SIZE && Most() == old(Most())
        invariant buffer == old(buffer) || fresh(buffer)
        invariant count == 0 ==> buffer == old(buffer) && bufread == old(bufread)
        invariant buffer[startOfLine..startOfLine + bufbytes] == line
        decreases if count == 0 then 1 else 0
      {
        if bufread * 2 > maxSize {
          return 0;
        }
        Grow();
        count := (bufread - bufbytes) / IO_SIZE * IO_SIZE;
      }
    }

    /** Shifts the line down and reads behind it. */
    method Load(bufbytes: nat, count: nat) returns (n: nat)
      requires Shape() && !eof && bufbytes == end - startOfLine && count >= IO_SIZE && bufbytes + count <= bufread
      modifies this`rest, this`end, this`startOfLine, this`endOfLine, this`eof, buffer
      ensures Shape() && startOfLine == 0 && endOfLine == bufbytes && end == bufbytes + n && (!eof ==> AsAsked(n, |old(rest)|))
      ensures buffer[..bufbytes] == old(buffer[startOfLine..startOfLine + bufbytes])
      ensures eof ==>
                && rest == [] && old(rest) == []
                && (if bufbytes == 0 || buffer[bufbytes - 1] == '\n' then n == 0 else n == 1 && buffer[bufbytes] == '\n')
      ensures !eof ==> n > 0 && buffer[bufbytes..end] + rest == old(rest)
    {
      ghost var line := buffer[startOfLine..startOfLine + bufbytes];
      ghost var input := rest;
      ShiftDown(bufbytes);
      assert buffer[..bufbytes] == line;
      n := ReadInto(bufbytes, count);
      assert buffer[..bufbytes] == line;
      startOfLine, endOfLine := 0, bufbytes;
      if n == 0 {
        eof := true;
        if bufbytes > 0 && buffer[bufbytes - 1] != '\n' {
          n := 1;
          buffer[bufbytes] := '\n';
        }
      } else {
        assert buffer[bufbytes..bufbytes + n] == input[..n];
        assert input == input[..n] + rest;
      }
      end := bufbytes + n;
      buffer[end] := '\0';
      assert buffer[..bufbytes] == line;
      assert !eof ==> buffer[bufbytes..end] == input[..n];
    }

    /** The end of the first line in the buffer, or the end of the buffer. */
    method Scan(ghost start: nat, from: nat) returns (pos: nat)
      requires Shape() && start <= from <= end && '\n' !in buffer[start..from]
      ensures from <= pos <= end && '\n' !in buffer[start..pos]
      ensures pos < end ==> buffer[pos] == '\n'
    {
      pos := from;
      while pos != end && buffer[pos] != '\n'
        invariant from <= pos <= end && '\n' !in buffer[start..pos]
        decreases end - pos
      {
        assert buffer[start..pos + 1] == buffer[start..pos] + [buffer[pos]];
        pos := pos + 1;
      }
    }

    /** While looking for the end of a line: the line so far, what is buffered behind it, and the
        unread file make up `text`. At the end of the file a newline was added. */
    ghost predicate Looking(text: string)
      reads this, buffer
    {
      && Shape() && '\n' !in buffer[startOfLine..endOfLine]
      && (!eof ==> buffer[startOfLine..end] + rest == text)
      && (eof ==> rest == [] && if endOfLine == end then startOfLine == end && text == [] else AtLastLine(text))
    }

    ghost predicate AtLastLine(text: string)
      requires Shape()
      reads this, buffer
    {
      && endOfLine + 1 == end && buffer[endOfLine] == '\n' && startOfLine < endOfLine
      && buffer[startOfLine..endOfLine] == text
    }

    /** A line of `text`, or a piece of one that fills the buffer, was handed out: it starts at the
        start of the line and has `len` characters, and the rest of `text` is still unread. */
    ghost predicate Handed(text: string, len: nat)
      reads this, buffer
    {
      && Valid() && startOfLine + len <= endOfLine && 0 < len
      && (truncated ==>
            && !eof && endOfLine == end && len == end - startOfLine && '\n' !in buffer[startOfLine..endOfLine]
            && text == buffer[startOfLine..endOfLine] + Unread()
            && len > bufread - IO_SIZE && 2 * bufread > maxSize)
      && (!truncated && !eof ==>
            && len == endOfLine - startOfLine && buffer[endOfLine - 1] == '\n'
            && '\n' !in buffer[startOfLine..endOfLine - 1]
            && text == buffer[startOfLine..endOfLine] + Unread())
      && (!truncated && eof ==>
            startOfLine + len + 1 == endOfLine && buffer[startOfLine..startOfLine + len] == text && '\n' !in text && Unread() == [])
    }

    /** Gets more of the line when no newline is buffered. */
    method Extend(ghost text: string) returns (got: Got)
      requires Looking(text) && '\n' !in buffer[startOfLine..end]
      modifies this, buffer
      ensures maxSize == old(maxSize) && (buffer == old(buffer) || fresh(buffer)) && Shape() && Most() == old(Most())
      ensures got == More ==>
                && endOfLine - startOfLine + IO_SIZE <= bufread && endOfLine - startOfLine == old(end - startOfLine)
                && if eof then end == endOfLine + 1 else AsAsked(end - endOfLine, |old(rest)|)
      ensures got == Full ==>
                && startOfLine == old(startOfLine) && endOfLine == old(endOfLine) && end == old(end)
                && bufread == old(bufread) && eof == old(eof)
      ensures got == NoMore ==> endOfLine == end
      ensures got == NoMore ==> Valid() && text == [] && Unread() == []
      ensures got == Full ==>
                && Looking(text) && !eof && '\n' !in buffer[startOfLine..end]
                && end - startOfLine > bufread - IO_SIZE && 2 * bufread > maxSize
      ensures got == More ==> Looking(text) && !old(eof) && (eof || |rest| < |old(rest)|)
    {
      hide LineBuffer.AsAsked, Limit;
      ghost var line := buffer[startOfLine..end];
      ghost var rest0 := rest;
      assert forall i :: endOfLine <= i < end ==> buffer[i] == line[i - startOfLine];
      var n := FillBuffer();
      if n == 0 {
        if eof {
          assert rest0 == [] && line + rest0 == line;
          return NoMore;
        }
        assert buffer[startOfLine..end] == buffer[..][startOfLine..end] == line;
        assert buffer[startOfLine..endOfLine] == buffer[..][startOfLine..endOfLine];
        return Full;
      }
      assert buffer[startOfLine..endOfLine] == line;
      if eof {
        assert line + rest0 == line;
      } else {
        assert buffer[startOfLine..end] + rest == line + (buffer[endOfLine..end] + rest);
      }
      return More;
    }

    /** Finds the next line, or a piece of it when it does not fit the buffer. `len` leaves out a
        newline that was added at the end of the file. */
    method InternReadLine() returns (ok: bool, len: nat)
      requires Valid()
      modifies this, buffer
      ensures (buffer == old(buffer) || fresh(buffer)) && maxSize == old(maxSize) && Shape() && Most() == old(Most())
      ensures old(Steady()) ==> endOfLine == end
      ensures old(Steady()) && ok && truncated ==> len == CutAfter(sizes, |old(Unread())|, Most())
      ensures old(Steady()) && ok && !truncated ==> len + IO_SIZE <= Most() + if eof then 0 else 1
      ensures !ok ==> Valid()
      ensures !ok ==> old(Unread()) == [] && Unread() == []
      ensures ok ==> Handed(old(Unread()), len)
    {
      hide LineBuffer.AtLastLine, LineBuffer.Handed, LineBuffer.Near, Limit, Follows, CutAfter;
      ghost var text := Unread();
      ghost var steady := Steady();
      NothingBuffered();
      startOfLine := endOfLine;
      NothingAhead(text);
      while true
        invariant Looking(text) && maxSize == old(maxSize) && (buffer == old(buffer) || fresh(buffer)) && Most() == old(Most())
        invariant steady ==> Follows(sizes, text, Most()) && Near(text)
        decreases if eof then 0 else 1, |rest|
      {
        var got;
        got, len := SearchOn(text, steady);
        if got != More {
          return got == Full, len;
        }
      }
    }

    /** The last read was one of a single byte, or the one that fills the buffer and ends inside the line. */
    ghost predicate Near(text: string)
      requires Shape()
      reads this
    {
      var before, last := endOfLine - startOfLine, end - endOfLine;
      && before + IO_SIZE <= bufread
      && (before + IO_SIZE < Most() ==> last <= 1)
      && (before + IO_SIZE == Most() && last > 1 ==> Newline(text) >= before + last)
      && (before + IO_SIZE == Most() && last > 0 && !eof ==> before + last == CutAfter(sizes, |text|, Most()))
    }

    lemma NothingAhead(text: string)
      requires Shape()
      ensures startOfLine == endOfLine == end ==> Near(text)
    {
    }

    /** Looks for the newline in what is buffered, and takes the line, a full buffer, or more of the file. */
    method SearchOn(ghost text: string, ghost steady: bool) returns (got: Got, len: nat)
      requires Looking(text) && (steady ==> Follows(sizes, text, Most()) && Near(text))
      modifies this, buffer
      ensures (buffer == old(buffer) || fresh(buffer)) && maxSize == old(maxSize) && Shape() && Most() == old(Most())
      ensures got == More ==> Looking(text) && (steady ==> Near(text)) && !old(eof) && (eof || |rest| < |old(rest)|)
      ensures got == Full ==> Handed(text, len) && (steady ==> endOfLine == end)
      ensures got == Full && steady ==>
        if truncated then len == CutAfter(sizes, |text|, Most()) else len + IO_SIZE <= Most() + if eof then 0 else 1
      ensures got == NoMore ==> Valid() && text == [] && Unread() == [] && endOfLine == end
    {
      hide LineBuffer.AtLastLine, LineBuffer.Handed, Limit, Follows, CutAfter, Newline;
      len := 0;
      var pos := Scan(startOfLine, endOfLine);
      if pos < end {
        EndsLine(pos, text);
        len := TakeLine(pos, text);
        return Full, len;
      }
      ghost var before, r := end - startOfLine, |rest|;
      assert !eof ==> |text| == before + r && Newline(text) >= before by {
        if !eof {
          NewlineAfter(buffer[startOfLine..end], rest);
        }
      }
      got := Extend(text);
      if got == Full {
        LimitReached(bufread, maxSize);
        len := TakePiece(text);
      } else if got == More && steady {
        ReadAsPlanned(sizes, text, before, end - endOfLine, eof, Most());
      }
    }

    /** The newline that is found is the last byte read. */
    lemma EndsLine(pos: nat, text: string)
      requires Looking(text) && endOfLine <= pos < end && buffer[pos] == '\n' && '\n' !in buffer[startOfLine..pos]
      ensures Near(text) ==> pos == endOfLine && pos + 1 == end
    {
      hide Limit, Newline;
      if !eof {
        assert text[..pos - startOfLine] == buffer[startOfLine..pos];
        assert text[pos - startOfLine] == buffer[pos];
        NewlineIs(text, pos - startOfLine);
      }
    }

    /** Hands out the line that ends at `pos`. */
    method TakeLine(pos: nat, ghost text: string) returns (len: nat)
      requires Looking(text) && endOfLine <= pos < end && buffer[pos] == '\n' && '\n' !in buffer[startOfLine..pos]
      modifies this`truncated, this`endOfLine
      ensures Valid() && Handed(text, len) && !truncated && endOfLine == pos + 1 && startOfLine + len == pos + if eof then 0 else 1
    {
      truncated := false;
      len := pos + 1 - (if eof then 1 else 0) - startOfLine;
      endOfLine := pos + 1;
      assert buffer[startOfLine..end] == buffer[startOfLine..endOfLine] + buffer[endOfLine..end];
    }

    /** Hands out the whole buffer as a piece of a line. */
    method TakePiece(ghost text: string) returns (len: nat)
      requires Looking(text) && !eof && '\n' !in buffer[startOfLine..end]
      requires end - startOfLine > bufread - IO_SIZE && 2 * bufread > maxSize
      modifies this`truncated, this`endOfLine
      ensures Valid() && Handed(text, len) && truncated && endOfLine == end && len == end - startOfLine
    {
      truncated := true;
      endOfLine := end;
      len := end - startOfLine;
    }

    /** The next line without its line end, or a piece of a line that is too long. */
    method ReadLine(binary: bool) returns (ok: bool, line: string)
      requires Valid()
      modifies this, buffer
      ensures Valid() && (buffer == old(buffer) || fresh(buffer)) && maxSize == old(maxSize) && Most() == old(Most())
      ensures ok <==> old(Unread()) != []
      ensures !ok ==> Unread() == []
      ensures ok && !truncated ==> (line, Unread()) == FirstLine(old(Unread()), binary)
      ensures ok && truncated ==>
                && line != [] && '\n' !in line && old(Unread()) == line + Unread()
                && |line| > bufread - IO_SIZE && 2 * bufread > maxSize && Most() == bufread
      ensures ok ==> |line| <= Most()
      // reads that follow the lines do not go beyond a line, so whether a line is cut depends on its length only
      ensures old(Steady()) ==> Steady()
      ensures old(Steady()) && ok ==> (truncated <==> Newline(old(Unread())) + IO_SIZE > Most())
      ensures old(Steady()) && ok && truncated ==> |line| == CutAfter(sizes, |old(Unread())|, Most())
    {
      hide FirstLine, Chomp, Limit, Newline, Follows, CutAfter, LineBuffer.Handed, RawLine;
      ghost var text := Unread();
      ghost var steady := Steady();
      NothingBuffered();
      var len;
      ok, len := InternReadLine();
      line := [];
      if ok {
        RawIs(text, len);
        ghost var raw := buffer[startOfLine..startOfLine + len];
        line := TakeOut(len, binary, text);
        LineTold(text, raw, Unread(), line, eof, truncated, binary);
        if truncated {
          LimitReached(bufread, maxSize);
        }
        if steady {
          NothingBuffered();
          FollowsOn(sizes, text, Piece(line, truncated), Unread(), binary, Most());
        }
      }
    }

    /** What was handed out, as bytes. */
    lemma RawIs(text: string, len: nat)
      requires Handed(text, len)
      ensures Valid() && text != [] && 0 < len && startOfLine + len <= bufread
      ensures RawLine(text, buffer[startOfLine..startOfLine + len], Unread(), eof, truncated)
      ensures truncated ==> len > bufread - IO_SIZE && 2 * bufread > maxSize
    {
    }

    /** Takes the line of `len` bytes, which may include its line end, and puts a NUL behind it. */
    method TakeOut(len: nat, binary: bool, ghost text: string) returns (line: string)
      requires Handed(text, len)
      modifies this`readLength, buffer
      ensures startOfLine + len <= buffer.Length && 0 < len
      ensures Valid() && Unread() == old(Unread()) && |line| <= len
      ensures var raw := old(buffer[startOfLine..startOfLine + len]);
        if raw[|raw| - 1] == '\n' then line == Chomp(raw[..|raw| - 1], binary) else line == raw
    {
      hide Chomp;
      ghost var left := Unread();
      var n := Trimmed(len, binary);
      readLength := n;
      line := buffer[startOfLine..startOfLine + n];
      buffer[startOfLine + n] := '\0';
      assert buffer[endOfLine..end] == old(buffer[endOfLine..end]);
    }

    /** The length without the line end. */
    method Trimmed(len: nat, binary: bool) returns (n: nat)
      requires Shape() && 0 < len && startOfLine + len <= endOfLine
      ensures n <= len
      ensures var raw := buffer[startOfLine..startOfLine + len];
              if raw[|raw| - 1] == '\n'
              then n < len && buffer[startOfLine..startOfLine + n] == Chomp(raw[..|raw| - 1], binary)
              else n == len
    {
      n := len;
      ghost var raw := buffer[startOfLine..startOfLine + len];
      if buffer[startOfLine + n - 1] == '\n' {
        n := n - 1;
        assert raw[..n] == buffer[startOfLine..startOfLine + n];
        assert n > 0 ==> raw[..n][..n - 1] == buffer[startOfLine..startOfLine + n - 1];
        if n > 0 && !binary && buffer[startOfLine + n - 1] == '\r' {
          n := n - 1;
        }
      }
    }

    /** Reads everything. A line is cut only into pieces that fill the largest buffer but for less than a block; reads
        that follow the lines cut exactly those that are too long for that buffer, and exactly where they say. */
    method ReadAll(binary: bool) returns (pieces: seq<Piece>)
      requires Valid()
      modifies this, buffer
      ensures ReadsAs(old(Unread()), binary, pieces, []) && FitBuffer(pieces, old(Most()))
      ensures old(Steady()) ==> pieces == Planned(sizes, old(Unread()), binary, old(Most()))
    {
      hide FirstLine, Newline, Limit, Planned, ReadsAs, Follows, CutAfter;
      ghost var text := Unread();
      ghost var most := Most();
      ghost var steady := Steady();
      NothingRead(text, binary);
      pieces := [];
      while true
        invariant Valid() && (buffer == old(buffer) || fresh(buffer)) && Most() == most
        invariant ReadsAs(text, binary, pieces, Unread()) && FitBuffer(pieces, most)
        invariant steady ==>
          Steady() && Planned(sizes, text, binary, most) == pieces + Planned(sizes, Unread(), binary, most)
        decreases |Unread()|
      {
        ghost var before := Unread();
        var ok, line := ReadLine(binary);
        if !ok {
          NothingPlanned(sizes, binary, most);
          return;
        }
        ShorterRest(before, binary);
        ReadsOn(text, binary, pieces, before, Piece(line, truncated), Unread());
        if steady {
          PlannedOn(sizes, before, binary, most, Piece(line, truncated), Unread());
          assert pieces + ([Piece(line, truncated)] + Planned(sizes, Unread(), binary, most))
              == pieces + [Piece(line, truncated)] + Planned(sizes, Unread(), binary, most);
        }
        pieces := pieces + [Piece(line, truncated)];
      }
    }
  }

  datatype Piece = Piece(line: string, truncated: bool)

  /** Reading one piece of `text` leaves `left`: a whole line, or a part of one. */
  ghost predicate ReadsOne(text: string, binary: bool, p: Piece, left: string) {
    && text != []
    && if p.truncated then p.line != [] && '\n' !in p.line && text == p.line + left
       else (p.line, left) == FirstLine(text, binary)
  }

  /** Reading the pieces, one after the other, leaves `left`. */
  ghost predicate ReadsAs(text: string, binary: bool, pieces: seq<Piece>, left: string)
    decreases |pieces|
  {
    if pieces == [] then text == left
    else ReadsOne(text, binary, pieces[0], AfterPiece(text, binary, pieces[0]))
         && ReadsAs(AfterPiece(text, binary, pieces[0]), binary, pieces[1..], left)
  }

  function AfterPiece(text: string, binary: bool, p: Piece): string {
    if !p.truncated then FirstLine(text, binary).1
    else if |p.line| <= |text| then text[|p.line|..] else []
  }

  /** No piece is larger than the buffer, and one that is cut off fills it but for less than a block. */
  ghost predicate FitBuffer(pieces: seq<Piece>, limit: nat) {
    forall i :: 0 <= i < |pieces| ==>
      |pieces[i].line| <= limit && (pieces[i].truncated ==> |pieces[i].line| + IO_SIZE > limit)
  }

  /** Where a line is cut that has `r` bytes left from its start or its last cut: single bytes are read as long as there
      is room for a whole block and more, and then as many as `sizes` asks for. */
  function CutAfter(sizes: nat -> nat, r: nat, limit: nat): nat
    requires limit >= IO_SIZE
  {
    limit - IO_SIZE + 1 + if r >= limit - IO_SIZE then sizes(r - (limit - IO_SIZE)) else 0
  }

  /** With more than `lo` and at most `hi` bytes left, single bytes are read. */
  ghost predicate Singles(sizes: nat -> nat, lo: int, hi: int) {
    forall r: nat :: lo < r <= hi ==> sizes(r) == 0
  }

  /** Reads of single bytes, but for the one that fills the buffer: that one ends inside the line. */
  ghost predicate Follows(sizes: nat -> nat, text: string, limit: nat)
    requires limit >= IO_SIZE
    decreases |text|
  {
    text == [] ||
    if Newline(text) + IO_SIZE <= limit then
      && Singles(sizes, |text| - Newline(text) - 1, |text|)
      && (ShorterRest(text, true); Follows(sizes, FirstLine(text, true).1, limit))
    else
      var n := CutAfter(sizes, |text|, limit);
      && Singles(sizes, |text| - (limit - IO_SIZE), |text|)
      && n <= limit && n <= Newline(text) && Follows(sizes, text[n..], limit)
  }

  /** The pieces that such reads give. */
  function Planned(sizes: nat -> nat, text: string, binary: bool, limit: nat): seq<Piece>
    requires limit >= IO_SIZE
    decreases |text|
  {
    if text == [] then []
    else if Newline(text) + IO_SIZE <= limit then
      ShorterRest(text, binary);
      [Piece(FirstLine(text, binary).0, false)] + Planned(sizes, FirstLine(text, binary).1, binary, limit)
    else
      var n := CutAfter(sizes, |text|, limit);
      if n > |text| then [] else [Piece(text[..n], true)] + Planned(sizes, text[n..], binary, limit)
  }

  function Zero(r: nat): nat {
    0
  }

  /** Reading single bytes always follows the lines. */
  lemma {:induction false} ZeroFollows(text: string, limit: nat)
    requires limit >= IO_SIZE
    ensures Follows(Zero, text, limit)
    decreases |text|
  {
    if text != [] {
      ShorterRest(text, true);
      hide FirstLine;
      if Newline(text) + IO_SIZE <= limit {
        ZeroFollows(FirstLine(text, true).1, limit);
      } else {
        assert CutAfter(Zero, |text|, limit) == limit - IO_SIZE + 1;
        ZeroFollows(text[limit - IO_SIZE + 1..], limit);
      }
    }
  }

  /** One read while looking for the end of a line, with `before` bytes of it read so far. */
  lemma ReadAsPlanned(sizes: nat -> nat, text: string, before: nat, last: nat, eof: bool, limit: nat)
    requires limit >= IO_SIZE && Follows(sizes, text, limit) && before + IO_SIZE <= limit
    requires if eof then last == 1
             else before < |text| && Newline(text) >= before &&
                  var size := sizes(|text| - before); size < IO_SIZE && size < |text| - before ==> last == size + 1
    ensures before + IO_SIZE < limit ==> last <= 1
    ensures before + IO_SIZE == limit && last > 1 ==> Newline(text) >= before + last
    ensures before + IO_SIZE == limit && !eof ==> before + last == CutAfter(sizes, |text|, limit)
  {
    hide FirstLine, Newline;
    if !eof {
      var size := sizes(|text| - before);
      assert before + IO_SIZE == limit ==> CutAfter(sizes, |text|, limit) == before + 1 + size;
      if Newline(text) + IO_SIZE <= limit {
        assert |text| - Newline(text) - 1 < |text| - before <= |text|;
        assert size == 0;
      } else if before + IO_SIZE < limit {
        assert size == 0;
      }
    }
  }

  /** After a line or a piece, the reads go on to follow the lines. */
  lemma FollowsOn(sizes: nat -> nat, text: string, p: Piece, left: string, binary: bool, limit: nat)
    requires limit >= IO_SIZE && Follows(sizes, text, limit) && ReadsOne(text, binary, p, left)
    requires p.truncated <==> Newline(text) + IO_SIZE > limit
    requires p.truncated ==> |p.line| == CutAfter(sizes, |text|, limit)
    ensures Follows(sizes, left, limit)
  {
    hide Newline, CutAfter;
    if p.truncated {
      assert text[|p.line|..] == left;
    } else {
      assert FirstLine(text, true).1 == FirstLine(text, binary).1 == left;
    }
  }

  lemma NothingRead(text: string, binary: bool)
    ensures ReadsAs(text, binary, [], text)
  {
  }

  lemma NothingPlanned(sizes: nat -> nat, binary: bool, limit: nat)
    requires limit >= IO_SIZE
    ensures Planned(sizes, [], binary, limit) == []
  {
  }

  lemma ShorterRest(text: string, binary: bool)
    requires text != []
    ensures |FirstLine(text, binary).1| < |text|
  {
  }

  lemma PlannedOn(sizes: nat -> nat, text: string, binary: bool, limit: nat, p: Piece, left: string)
    requires limit >= IO_SIZE && ReadsOne(text, binary, p, left)
    requires p.truncated <==> Newline(text) + IO_SIZE > limit
    requires p.truncated ==> |p.line| == CutAfter(sizes, |text|, limit)
    ensures Planned(sizes, text, binary, limit) == [p] + Planned(sizes, left, binary, limit)
  {
    hide FirstLine, Newline, CutAfter;
    if p.truncated {
      assert text[..|p.line|] == p.line && text[|p.line|..] == left;
    }
  }

  lemma {:induction false} ReadsOn(text: string, binary: bool, pieces: seq<Piece>, mid: string, p: Piece, left: string)
    requires ReadsAs(text, binary, pieces, mid) && ReadsOne(mid, binary, p, left)
    ensures ReadsAs(text, binary, pieces + [p], left)
    decreases |pieces|
  {
    var all := pieces + [p];
    if pieces == [] {
      assert all[1..] == [] && AfterPiece(mid, binary, p) == left;
    } else {
      assert all[1..] == pieces[1..] + [p];
      ReadsOn(AfterPiece(text, binary, pieces[0]), binary, pieces[1..], mid, p, left);
    }
  }

  function Lines(pieces: seq<Piece>): seq<string> {
    if pieces == [] then [] else [pieces[0].line] + Lines(pieces[1..])
  }

  /** When no piece is cut off, the result is the text split into lines. */
  lemma {:induction false} WholeLines(text: string, binary: bool, pieces: seq<Piece>)
    requires ReadsAs(text, binary, pieces, []) && !AnyCut(pieces)
    ensures Lines(pieces) == Split(text, binary)
    decreases |pieces|
  {
    if pieces != [] {
      hide FirstLine;
      assert !pieces[0].truncated && forall i :: 0 <= i < |pieces[1..]| ==> pieces[1..][i] == pieces[i + 1];
      WholeLines(AfterPiece(text, binary, pieces[0]), binary, pieces[1..]);
    }
  }

  /** Pieces of long lines put together again. */
  function Glued(pieces: seq<Piece>): seq<string> {
    if pieces == [] then []
    else
      var more := Glued(pieces[1..]);
      if pieces[0].truncated && more != [] then [pieces[0].line + more[0]] + more[1..]
      else [pieces[0].line] + more
  }

  /** Nothing is lost or changed by splitting long lines: in binary mode the pieces put together
      again are the lines of the text. */
  lemma {:induction false} PiecesMakeLines(text: string, pieces: seq<Piece>)
    requires ReadsAs(text, true, pieces, [])
    ensures Glued(pieces) == Split(text, true)
    decreases |pieces|
  {
    if pieces != [] {
      var p := pieces[0];
      PiecesMakeLines(AfterPiece(text, true, p), pieces[1..]);
      if p.truncated {
        SplitAfterPiece(p.line, AfterPiece(text, true, p));
      }
    }
  }

  /** No long line is cut between the carriage return and the newline that end it. */
  ghost predicate CleanCuts(text: string, pieces: seq<Piece>)
    decreases |pieces|
  {
    pieces == [] ||
    var rest := AfterPiece(text, false, pieces[0]);
    !(pieces[0].truncated && CutsLineEnd(pieces[0].line, rest)) && CleanCuts(rest, pieces[1..])
  }

  predicate CutsLineEnd(line: string, rest: string) {
    line != [] && line[|line| - 1] == '\r' && rest != [] && rest[0] == '\n'
  }

  /** In text mode the pieces put together again are the lines exactly when no cut falls inside a line
      end; there, the carriage return stays. */
  lemma {:induction false} TextPiecesMakeLines(text: string, pieces: seq<Piece>)
    requires ReadsAs(text, false, pieces, [])
    ensures Glued(pieces) == Split(text, false) <==> CleanCuts(text, pieces)
    decreases |pieces|
  {
    if pieces != [] {
      hide FirstLine, Newline;
      var p := pieces[0];
      var rest := AfterPiece(text, false, p);
      TextPiecesMakeLines(rest, pieces[1..]);
      var g, s := Glued(pieces[1..]), Split(rest, false);
      GluedSome(rest, pieces[1..]);
      if p.truncated {
        TextLineAfter(p.line, rest);
        var head := FirstLine(text, false).0;
        if rest == [] {
          assert Split(text, false) == [p.line] && Glued(pieces) == [p.line] + g;
        } else {
          assert Split(text, false) == [head] + s[1..];
          SameFront(p.line, head, g, s, CutsLineEnd(p.line, rest));
        }
      } else {
        assert Glued(pieces)[1..] == g && Split(text, false)[1..] == s;
      }
    }
  }

  // ----- which texts are read whole -----

  /** Every line, with its carriage return if it has one, leaves a block of the largest buffer free. */
  ghost predicate ShortLines(text: string, limit: nat) {
    forall i :: 0 <= i < |Split(text, true)| ==> |Split(text, true)[i]| + IO_SIZE <= limit
  }

  ghost predicate AnyCut(pieces: seq<Piece>) {
    exists i :: 0 <= i < |pieces| && pieces[i].truncated
  }

  lemma FirstOfSplit(text: string, binary: bool)
    requires text != []
    ensures Split(text, true) == [text[..Newline(text)]] + Split(FirstLine(text, binary).1, true)
    ensures |FirstLine(text, binary).0| <= Newline(text) && |FirstLine(text, binary).1| < |text|
  {
    assert Newline(text) == |text| ==> text[..Newline(text)] == text;
  }

  /** Whether short lines are short does not depend on what is in front. */
  lemma ShortFirst(text: string, binary: bool, limit: nat)
    requires text != []
    ensures ShortLines(text, limit) <==> Newline(text) + IO_SIZE <= limit && ShortLines(FirstLine(text, binary).1, limit)
  {
    FirstOfSplit(text, binary);
    var rest := Split(FirstLine(text, binary).1, true);
    var all := [text[..Newline(text)]] + rest;
    hide FirstLine, Newline, Split;
    assert |all[0]| == Newline(text) && forall i :: 0 <= i < |rest| ==> all[i + 1] == rest[i];
    if ShortLines(text, limit) {
      forall i | 0 <= i < |rest|
        ensures |rest[i]| + IO_SIZE <= limit
      {
        assert rest[i] == all[i + 1];
      }
    }
  }

  /** A piece that is cut off belongs to a line that is not short. */
  lemma CutIsLong(text: string, binary: bool, p: Piece, left: string, limit: nat)
    requires ReadsOne(text, binary, p, left) && p.truncated && |p.line| + IO_SIZE > limit
    ensures !ShortLines(text, limit)
  {
    hide FirstLine, Newline;
    NewlineAfter(p.line, left);
    ShortFirst(text, binary, limit);
  }

  lemma {:induction false} ShortLinesUncut(text: string, binary: bool, pieces: seq<Piece>, limit: nat)
    requires ReadsAs(text, binary, pieces, []) && FitBuffer(pieces, limit) && ShortLines(text, limit)
    ensures !AnyCut(pieces)
    decreases |pieces|
  {
    if pieces != [] {
      hide FirstLine, Newline, ShortLines;
      var p, rest := pieces[0], AfterPiece(text, binary, pieces[0]);
      if p.truncated {
        CutIsLong(text, binary, p, rest, limit);
      }
      ShortFirst(text, binary, limit);
      ShortLinesUncut(rest, binary, pieces[1..], limit);
      assert forall i :: 1 <= i < |pieces| ==> pieces[i] == pieces[1..][i - 1];
    }
  }

  /** When all lines are short, they are read whole: the result is the text split into lines, for every schedule of
      short reads. */
  lemma ShortLinesAreWhole(text: string, binary: bool, pieces: seq<Piece>, limit: nat)
    requires ReadsAs(text, binary, pieces, []) && FitBuffer(pieces, limit) && ShortLines(text, limit)
    ensures !AnyCut(pieces) && Lines(pieces) == Split(text, binary)
  {
    hide ReadsAs, FitBuffer, ShortLines, AnyCut;
    ShortLinesUncut(text, binary, pieces, limit);
    WholeLines(text, binary, pieces);
  }

  lemma ReadsFirst(text: string, binary: bool, p: Piece, left: string, more: seq<Piece>, end: string, limit: nat)
    requires ReadsOne(text, binary, p, left) && ReadsAs(left, binary, more, end) && FitBuffer(more, limit)
    requires |p.line| <= limit && (p.truncated ==> |p.line| + IO_SIZE > limit)
    ensures ReadsAs(text, binary, [p] + more, end) && FitBuffer([p] + more, limit)
  {
    hide FirstLine;
    assert ([p] + more)[1..] == more;
    assert AfterPiece(text, binary, p) == left;
  }

  /** A piece of a line that has `n` characters at least. */
  lemma ReadsPiece(text: string, binary: bool, n: nat)
    requires 0 < n <= Newline(text)
    ensures ReadsOne(text, binary, Piece(text[..n], true), text[n..])
  {
    assert text == text[..n] + text[n..];
    assert text[..n] == text[..Newline(text)][..n];
  }

  /** Reads that follow the lines are one of the ways to read. */
  lemma {:induction false} PlannedReads(sizes: nat -> nat, text: string, binary: bool, limit: nat)
    requires limit >= IO_SIZE && Follows(sizes, text, limit)
    ensures ReadsAs(text, binary, Planned(sizes, text, binary, limit), [])
    ensures FitBuffer(Planned(sizes, text, binary, limit), limit)
    decreases |text|
  {
    if text != [] {
      hide Newline, CutAfter;
      FirstOfSplit(text, binary);
      if Newline(text) + IO_SIZE <= limit {
        var (first, rest) := FirstLine(text, binary);
        PlannedReads(sizes, rest, binary, limit);
        ReadsFirst(text, binary, Piece(first, false), rest, Planned(sizes, rest, binary, limit), [], limit);
      } else {
        CutIsFull(sizes, |text|, limit);
        var n := CutAfter(sizes, |text|, limit);
        ReadsPiece(text, binary, n);
        PlannedReads(sizes, text[n..], binary, limit);
        ReadsFirst(text, binary, Piece(text[..n], true), text[n..], Planned(sizes, text[n..], binary, limit), [], limit);
      }
    }
  }

  lemma CutIsFull(sizes: nat -> nat, r: nat, limit: nat)
    requires limit >= IO_SIZE
    ensures CutAfter(sizes, r, limit) + IO_SIZE > limit && CutAfter(sizes, r, limit) > 0
  {
  }

  /** Such reads cut a line exactly when some line is not short. */
  lemma {:induction false} PlannedCuts(sizes: nat -> nat, text: string, binary: bool, limit: nat)
    requires limit >= IO_SIZE && Follows(sizes, text, limit)
    ensures AnyCut(Planned(sizes, text, binary, limit)) <==> !ShortLines(text, limit)
    decreases |text|
  {
    if text != [] {
      ShortFirst(text, binary, limit);
      FirstOfSplit(text, binary);
      hide CutAfter, ShortLines, Newline;
      var pieces := Planned(sizes, text, binary, limit);
      if Newline(text) + IO_SIZE <= limit {
        PlannedCuts(sizes, FirstLine(text, binary).1, binary, limit);
        var rest := Planned(sizes, FirstLine(text, binary).1, binary, limit);
        assert pieces == [Piece(FirstLine(text, binary).0, false)] + rest;
        assert forall i :: 0 <= i < |rest| ==> pieces[i + 1] == rest[i];
        if i :| 0 <= i < |pieces| && pieces[i].truncated {
          assert rest[i - 1].truncated;
        }
      } else {
        assert pieces[0].truncated;
      }
    } else {
      EmptyIsShort(limit);
    }
  }

  lemma EmptyIsShort(limit: nat)
    ensures ShortLines([], limit)
  {
  }

  /** The texts that are read without cutting a line, however the reads fall, are exactly those with short lines. */
  lemma WholeExactlyWhen(text: string, binary: bool, limit: nat)
    requires limit >= IO_SIZE
    ensures ShortLines(text, limit) <==>
            forall pieces :: ReadsAs(text, binary, pieces, []) && FitBuffer(pieces, limit) ==> !AnyCut(pieces)
  {
    ZeroFollows(text, limit);
    PlannedReads(Zero, text, binary, limit);
    PlannedCuts(Zero, text, binary, limit);
    forall pieces | ShortLines(text, limit) && ReadsAs(text, binary, pieces, []) && FitBuffer(pieces, limit)
      ensures !AnyCut(pieces)
    {
      ShortLinesAreWhole(text, binary, pieces, limit);
    }
  }

  /** Reading a file. Its lines are read whole however the reads fall, if they are short; otherwise reads of single
      bytes cut one. */
  method ReadLines(text: string, size: nat, maxSize: nat, binary: bool, sizes: nat -> nat) returns (pieces: seq<Piece>)
    requires IO_SIZE <= size
    ensures var limit := Limit(size, maxSize);
      if ShortLines(text, limit) then !AnyCut(pieces) && Lines(pieces) == Split(text, binary)
      else sizes == Zero ==> AnyCut(pieces)
  {
    hide ShortLines, Split, ReadsAs, FitBuffer, Follows, Planned, AnyCut, Limit;
    var reader := new LineBuffer(text, size, maxSize, sizes);
    ghost var limit := reader.Most();
    reader.NothingBuffered();
    ZeroFollows(text, limit);
    pieces := reader.ReadAll(binary);
    if ShortLines(text, limit) {
      ShortLinesAreWhole(text, binary, pieces, limit);
    }
    PlannedCuts(Zero, text, binary, limit);
  }

  // ----- what a file was written from -----

  /** A line, and whether it has a carriage return in front of its newline. */
  datatype Row = Row(line: string, carriage: bool)

  /** Lines, each with a line end, and a last line that lacks it. */
  function Written(rows: seq<Row>, last: string): string {
    if rows == [] then last
    else rows[0].line + (if rows[0].carriage then "\r\n" else "\n") + Written(rows[1..], last)
  }

  function AllLines(rows: seq<Row>, last: string): seq<string> {
    if rows == [] then (if last == "" then [] else [last]) else [rows[0].line] + AllLines(rows[1..], last)
  }

  /** In text mode either line end will do, but a line must not look as if it had the other one. */
  predicate CanWrite(r: Row, binary: bool) {
    '\n' !in r.line && (if binary then !r.carriage else !r.carriage ==> r.line == "" || r.line[|r.line| - 1] != '\r')
  }

  /** The lines that a file was written from come back. */
  lemma {:induction false} LinesComeBack(rows: seq<Row>, last: string, binary: bool)
    requires '\n' !in last && forall i :: 0 <= i < |rows| ==> CanWrite(rows[i], binary)
    ensures Split(Written(rows, last), binary) == AllLines(rows, last)
    decreases |rows|
  {
    if rows == [] {
      LastComesBack(last, binary);
    } else {
      hide Split, CanWrite;
      FirstComesBack(rows[0], Written(rows[1..], last), binary);
      LinesComeBack(rows[1..], last, binary);
    }
  }

  lemma LastComesBack(last: string, binary: bool)
    requires '\n' !in last
    ensures Split(last, binary) == if last == "" then [] else [last]
  {
    assert last[..|last|] == last;
    NewlineIs(last, |last|);
  }

  lemma FirstComesBack(r: Row, rest: string, binary: bool)
    requires CanWrite(r, binary)
    ensures Split(r.line + (if r.carriage then "\r\n" else "\n") + rest, binary) == [r.line] + Split(rest, binary)
  {
    var front := if r.carriage then r.line + "\r" else r.line;
    var text := r.line + (if r.carriage then "\r\n" else "\n") + rest;
    assert text == front + "\n" + rest && text[..|front|] == front && text[|front| + 1..] == rest;
    assert '\n' !in front;
    NewlineIs(text, |front|);
    assert Chomp(front, binary) == r.line;
    assert FirstLine(text, binary) == (r.line, rest);
  }

  // ----- which texts lose nothing in text mode -----

  /** `j` full pieces can make up `n` characters. */
  predicate InPieces(n: nat, j: nat, limit: nat)
    requires limit >= IO_SIZE
  {
    j * (limit + 1 - IO_SIZE) <= n <= j * limit
  }

  /** A cut can fall after `n` characters of a line. */
  ghost predicate CanCutAt(n: nat, limit: nat)
    requires limit >= IO_SIZE
  {
    exists j: nat :: j > 0 && InPieces(n, j, limit)
  }

  /** No cut can fall between a carriage return and the newline after it. */
  ghost predicate SafeEnds(text: string, limit: nat)
    requires limit >= IO_SIZE
    decreases |text|
  {
    var k := Newline(text);
    k == |text| || ((k > 0 && text[k - 1] == '\r' ==> !CanCutAt(k, limit)) && SafeEnds(text[k + 1..], limit))
  }

  lemma OnePieceMore(n: nat, j: nat, len: nat, limit: nat)
    requires limit >= IO_SIZE && InPieces(n, j, limit) && limit < len + IO_SIZE && len <= limit
    ensures InPieces(n + len, j + 1, limit)
  {
    assert (j + 1) * (limit + 1 - IO_SIZE) == j * (limit + 1 - IO_SIZE) + (limit + 1 - IO_SIZE);
    assert (j + 1) * limit == j * limit + limit;
  }

  /** Reading on after `front`, which is made up of `j` pieces of the current line. */
  lemma {:induction false} SafeIsClean(front: string, j: nat, text: string, pieces: seq<Piece>, limit: nat)
    requires limit >= IO_SIZE && '\n' !in front && InPieces(|front|, j, limit) && SafeEnds(front + text, limit)
    requires ReadsAs(text, false, pieces, []) && FitBuffer(pieces, limit)
    ensures CleanCuts(text, pieces)
    decreases |pieces|
  {
    if pieces != [] {
      hide Newline, FirstLine, InPieces, SafeEnds, FitBuffer, CanCutAt;
      var p, rest := pieces[0], AfterPiece(text, false, pieces[0]);
      FitRest(pieces, limit);
      if p.truncated {
        SafeAfterPiece(front, j, p.line, rest, limit);
        SafeIsClean(front + p.line, j + 1, rest, pieces[1..], limit);
      } else {
        SafeRest(front, text, limit);
        NoPieces(limit);
        assert [] + rest == rest;
        SafeIsClean([], 0, rest, pieces[1..], limit);
      }
    }
  }

  lemma SafeAfterPiece(front: string, j: nat, line: string, rest: string, limit: nat)
    requires limit >= IO_SIZE && '\n' !in front && '\n' !in line && line != [] && InPieces(|front|, j, limit)
    requires SafeEnds(front + (line + rest), limit) && limit < |line| + IO_SIZE && |line| <= limit
    ensures '\n' !in front + line && InPieces(|front + line|, j + 1, limit) && SafeEnds(front + line + rest, limit)
    ensures !CutsLineEnd(line, rest)
  {
    hide InPieces, SafeEnds;
    OnePieceMore(|front|, j, |line|, limit);
    assert front + (line + rest) == front + line + rest;
    CutLine(front + line, j + 1, rest, limit);
    assert (front + line)[|front + line| - 1] == line[|line| - 1];
  }

  lemma FitRest(pieces: seq<Piece>, limit: nat)
    requires pieces != [] && FitBuffer(pieces, limit)
    ensures FitBuffer(pieces[1..], limit)
    ensures |pieces[0].line| <= limit && (pieces[0].truncated ==> |pieces[0].line| + IO_SIZE > limit)
  {
  }

  lemma NoPieces(limit: nat)
    requires limit >= IO_SIZE
    ensures InPieces(0, 0, limit)
  {
  }

  /** A safe line that ends with a carriage return is not made up of full pieces. */
  lemma CutLine(line: string, j: nat, rest: string, limit: nat)
    requires limit >= IO_SIZE && '\n' !in line && j > 0 && InPieces(|line|, j, limit) && SafeEnds(line + rest, limit)
    ensures !CutsLineEnd(line, rest)
  {
    hide InPieces;
    NewlineAfter(line, rest);
  }

  lemma SafeRest(front: string, text: string, limit: nat)
    requires limit >= IO_SIZE && '\n' !in front && SafeEnds(front + text, limit)
    ensures SafeEnds(FirstLine(text, false).1, limit)
  {
    var k := Newline(text);
    NewlineAfter(front, text);
    if k < |text| {
      assert (front + text)[|front| + k + 1..] == text[k + 1..];
    }
  }

  /** Reads of `text` that follow the lines and cut one inside its line end. */
  ghost predicate BadReads(text: string, sizes: nat -> nat, limit: nat)
    requires limit >= IO_SIZE
  {
    Follows(sizes, text, limit) && !CleanCuts(text, Planned(sizes, text, false, limit))
  }

  /** Reads as by `sizes` once no more than `left` bytes are left, and single bytes before, but for one read. */
  function Before(sizes: nat -> nat, left: nat, at: nat, size: nat): nat -> nat {
    (r: nat) => if r <= left then sizes(r) else if r == at then size else 0
  }

  /** Only the sizes for what is left matter. */
  lemma {:induction false} SameSizes(a: nat -> nat, b: nat -> nat, text: string, limit: nat)
    requires limit >= IO_SIZE && Follows(a, text, limit) && forall r: nat :: r <= |text| ==> a(r) == b(r)
    ensures Follows(b, text, limit) && Planned(a, text, false, limit) == Planned(b, text, false, limit)
    decreases |text|
  {
    if text != [] {
      FirstOfSplit(text, false);
      assert FirstLine(text, true).1 == FirstLine(text, false).1;
      hide Newline, FirstLine;
      if Newline(text) + IO_SIZE <= limit {
        SameSizes(a, b, FirstLine(text, false).1, limit);
      } else {
        assert CutAfter(a, |text|, limit) == CutAfter(b, |text|, limit);
        hide CutAfter;
        SameSizes(a, b, text[CutAfter(a, |text|, limit)..], limit);
      }
    }
  }

  /** A cut after `n` bytes of a long line, and then reads as by `sizes`. */
  lemma CutBefore(text: string, n: nat, sizes: nat -> nat, limit: nat) returns (all: nat -> nat)
    requires limit >= IO_SIZE && n <= limit < n + IO_SIZE && n <= Newline(text) && Follows(sizes, text[n..], limit)
    ensures Follows(all, text, limit)
    ensures Planned(all, text, false, limit) == [Piece(text[..n], true)] + Planned(sizes, text[n..], false, limit)
  {
    hide Newline, FirstLine;
    var at := |text| - (limit - IO_SIZE);
    all := Before(sizes, |text| - n, at, n - 1 - (limit - IO_SIZE));
    SameSizes(sizes, all, text[n..], limit);
    assert CutAfter(all, |text|, limit) == n;
  }

  /** A line that is read whole, and then reads as by `sizes`. */
  lemma LineBefore(text: string, sizes: nat -> nat, limit: nat) returns (all: nat -> nat)
    requires limit >= IO_SIZE && Newline(text) + IO_SIZE <= limit && Newline(text) < |text|
    requires Follows(sizes, text[Newline(text) + 1..], limit)
    ensures Follows(all, text, limit)
    ensures Planned(all, text, false, limit)
         == [Piece(FirstLine(text, false).0, false)] + Planned(sizes, text[Newline(text) + 1..], false, limit)
  {
    hide Newline;
    var left := text[Newline(text) + 1..];
    all := Before(sizes, |left|, 0, 0);
    SameSizes(sizes, all, left, limit);
  }

  lemma CleanAfter(text: string, p: Piece, left: string, more: seq<Piece>)
    requires AfterPiece(text, false, p) == left
    ensures CleanCuts(text, [p] + more) <==> !(p.truncated && CutsLineEnd(p.line, left)) && CleanCuts(left, more)
  {
    assert ([p] + more)[1..] == more;
  }

  lemma BadNow(text: string, n: nat, limit: nat) returns (sizes: nat -> nat)
    requires limit >= IO_SIZE && 0 < n == Newline(text) < |text| && text[n - 1] == '\r' && n <= limit && n + IO_SIZE > limit
    ensures BadReads(text, sizes, limit)
  {
    hide FirstLine, Planned, CleanCuts, Follows;
    ZeroFollows(text[n..], limit);
    sizes := CutBefore(text, n, Zero, limit);
    CleanAfter(text, Piece(text[..n], true), text[n..], Planned(Zero, text[n..], false, limit));
  }

  /** How long the first of `j` pieces can be. */
  lemma FirstPiece(n: nat, j: nat, limit: nat) returns (len: nat)
    requires limit >= IO_SIZE && j > 1 && InPieces(n, j, limit)
    ensures limit < len + IO_SIZE && len <= limit && len < n && InPieces(n - len, j - 1, limit)
  {
    var a := limit + 1 - IO_SIZE;
    assert j * a == (j - 1) * a + a && j * limit == (j - 1) * limit + limit;
    assert (j - 1) * a >= a && (j - 1) * limit >= (j - 1) * a by {
      MoreThanOne(j - 1, a);
      Larger(j - 1, a, limit);
    }
    len := if n - a <= (j - 1) * limit then a else n - (j - 1) * limit;
  }

  lemma {:induction false} MoreThanOne(j: nat, a: nat)
    requires j > 0
    ensures j * a >= a
  {
    if j > 1 {
      MoreThanOne(j - 1, a);
    }
  }

  lemma {:induction false} Larger(j: nat, a: nat, b: nat)
    requires a <= b
    ensures j * a <= j * b
  {
    if j > 0 {
      Larger(j - 1, a, b);
    }
  }

  lemma NewlineIn(text: string, n: nat)
    requires n <= Newline(text)
    ensures Newline(text[n..]) == Newline(text) - n
  {
    hide Newline;
    assert text == text[..n] + text[n..];
    assert '\n' !in text[..n] by {
      assert text[..n] == text[..Newline(text)][..n];
    }
    NewlineAfter(text[..n], text[n..]);
  }

  /** Cutting a line into `j` pieces just before its newline. */
  lemma {:induction false} BadLine(text: string, j: nat, limit: nat) returns (sizes: nat -> nat)
    requires limit >= IO_SIZE && 0 < Newline(text) < |text| && text[Newline(text) - 1] == '\r'
    requires j > 0 && InPieces(Newline(text), j, limit)
    ensures BadReads(text, sizes, limit)
    decreases j
  {
    hide Newline, FirstLine, Planned, CleanCuts, Follows;
    if j == 1 {
      assert InPieces(Newline(text), 1, limit);
      sizes := BadNow(text, Newline(text), limit);
    } else {
      var n := FirstPiece(Newline(text), j, limit);
      NewlineIn(text, n);
      var more := BadLine(text[n..], j - 1, limit);
      sizes := CutBefore(text, n, more, limit);
      CleanAfter(text, Piece(text[..n], true), text[n..], Planned(more, text[n..], false, limit));
    }
  }

  /** Bad reads of what comes after a line give bad reads from the line on. */
  lemma {:induction false} BadAfterLine(text: string, more: nat -> nat, limit: nat) returns (sizes: nat -> nat)
    requires limit >= IO_SIZE && Newline(text) < |text| && BadReads(text[Newline(text) + 1..], more, limit)
    ensures BadReads(text, sizes, limit)
    decreases |text|
  {
    hide Newline, Planned, CleanCuts, Follows;
    if Newline(text) + IO_SIZE <= limit {
      sizes := LineBefore(text, more, limit);
      var left := text[Newline(text) + 1..];
      CleanAfter(text, Piece(FirstLine(text, false).0, false), left, Planned(more, left, false, limit));
    } else {
      hide FirstLine;
      var n := limit + 1 - IO_SIZE;
      NewlineIn(text, n);
      assert text[n..][Newline(text) - n + 1..] == text[Newline(text) + 1..];
      var rest := BadAfterLine(text[n..], more, limit);
      sizes := CutBefore(text, n, rest, limit);
      CleanAfter(text, Piece(text[..n], true), text[n..], Planned(rest, text[n..], false, limit));
    }
  }

  lemma {:induction false} UnsafeIsBad(text: string, limit: nat) returns (sizes: nat -> nat)
    requires limit >= IO_SIZE && !SafeEnds(text, limit)
    ensures BadReads(text, sizes, limit)
    decreases |text|
  {
    hide Newline, BadReads, InPieces;
    var k := Newline(text);
    if k > 0 && text[k - 1] == '\r' && CanCutAt(k, limit) {
      var j: nat :| j > 0 && InPieces(k, j, limit);
      sizes := BadLine(text, j, limit);
    } else {
      var more := UnsafeIsBad(text[k + 1..], limit);
      sizes := BadAfterLine(text, more, limit);
    }
  }

  /** Reads under which a text that is not safe does not come back. */
  ghost function LosingSizes(text: string, limit: nat): (sizes: nat -> nat)
    requires limit >= IO_SIZE && !SafeEnds(text, limit)
    ensures BadReads(text, sizes, limit)
  {
    SomeAreBad(text, limit);
    var sizes: nat -> nat :| BadReads(text, sizes, limit);
    sizes
  }

  lemma SomeAreBad(text: string, limit: nat)
    requires limit >= IO_SIZE && !SafeEnds(text, limit)
    ensures exists sizes: nat -> nat :: BadReads(text, sizes, limit)
  {
    hide SafeEnds, BadReads;
    var sizes := UnsafeIsBad(text, limit);
  }

  /** The texts whose pieces put together are their lines, however the reads fall, are exactly those in which no cut can
      fall between a carriage return and its newline. */
  lemma TextGluesExactlyWhen(text: string, limit: nat)
    requires limit >= IO_SIZE
    ensures SafeEnds(text, limit) <==>
            forall pieces :: ReadsAs(text, false, pieces, []) && FitBuffer(pieces, limit) ==> Glued(pieces) == Split(text, false)
  {
    hide SafeEnds;
    if SafeEnds(text, limit) {
      forall pieces | ReadsAs(text, false, pieces, []) && FitBuffer(pieces, limit)
        ensures Glued(pieces) == Split(text, false)
      {
        NoPieces(limit);
        assert [] + text == text;
        SafeIsClean([], 0, text, pieces, limit);
        TextPiecesMakeLines(text, pieces);
      }
    } else {
      hide Planned, Follows, ReadsAs, FitBuffer;
      var sizes := UnsafeIsBad(text, limit);
      PlannedReads(sizes, text, false, limit);
      TextPiecesMakeLines(text, Planned(sizes, text, false, limit));
    }
  }

  /** Reading a file in text mode. The pieces put together are its lines however the reads fall, if no cut can fall
      between a carriage return and its newline; otherwise there are reads for which they are not. */
  method ReadText(text: string, size: nat, maxSize: nat, sizes: nat -> nat) returns (pieces: seq<Piece>)
    requires IO_SIZE <= size
    ensures var limit := Limit(size, maxSize);
      if SafeEnds(text, limit) then Glued(pieces) == Split(text, false)
      else sizes == LosingSizes(text, limit) ==> Glued(pieces) != Split(text, false)
  {
    hide SafeEnds, Glued, Split, ReadsAs, FitBuffer, Follows, Planned, CleanCuts, Limit;
    var reader := new LineBuffer(text, size, maxSize, sizes);
    ghost var limit := reader.Most();
    reader.NothingBuffered();
    pieces := reader.ReadAll(false);
    TextGluesExactlyWhen(text, limit);
    TextPiecesMakeLines(text, pieces);
  }

  /** A carriage return that stays: a buffer of one block that may not grow, and reads of single bytes. */
  lemma CarriageReturnStays()
    ensures Follows(Zero, "\r\n", IO_SIZE)
    ensures var pieces := Planned(Zero, "\r\n", false, IO_SIZE);
      Glued(pieces) == ["\r"] && Split("\r\n", false) == [""]
  {
    ZeroFollows("\r\n", IO_SIZE);
    NewlineIs("\r\n", 1);
    NewlineIs("\n", 0);
    assert "\r\n"[..1] == "\r" && "\r\n"[1..] == "\n" && "\r\n"[2..] == [] && "\n"[1..] == [] && "\n"[..0] == "";
    assert Planned(Zero, "\n", false, IO_SIZE) == [Piece("", false)];
    assert Planned(Zero, "\r\n", false, IO_SIZE) == [Piece("\r", true), Piece("", false)];
    var last := [Piece("", false)];
    assert last[1..] == [] && Glued(last) == [""];
    var pieces := Planned(Zero, "\r\n", false, IO_SIZE);
    assert pieces[1..] == last;
    assert Glued(pieces) == ["\r" + ""] + [""][1..];
    assert "\r" + "" == "\r" && ["\r"] + [""][1..] == ["\r"];
    assert FirstLine("\r\n", false) == ("", []);
    assert Split("\r\n", false) == [""] + Split([], false);
  }

  lemma SameFront(line: string, head: string, g: seq<string>, s: seq<string>, cut: bool)
    requires g != [] && s != []
    requires if cut then |head| < |line| else head == line + s[0]
    ensures [line + g[0]] + g[1..] == [head] + s[1..] <==> !cut && g == s
  {
    var a, b := [line + g[0]] + g[1..], [head] + s[1..];
    if a == b {
      assert a[0] == b[0] && a[1..] == b[1..];
      if !cut {
        assert g[0] == (line + g[0])[|line|..] == (line + s[0])[|line|..] == s[0];
        assert g == [g[0]] + g[1..] && s == [s[0]] + s[1..];
      }
    }
  }

  lemma GluedSome(text: string, pieces: seq<Piece>)
    requires ReadsAs(text, false, pieces, [])
    ensures text == [] <==> Glued(pieces) == []
  {
  }

  lemma TextLineAfter(line: string, rest: string)
    requires '\n' !in line && line != []
    ensures FirstLine(line + rest, false).1 == FirstLine(rest, false).1
    ensures rest == [] ==> FirstLine(line + rest, false) == (line, []) && FirstLine(rest, false).1 == []
    ensures CutsLineEnd(line, rest) ==> |FirstLine(line + rest, false).0| < |line|
    ensures !CutsLineEnd(line, rest) ==> FirstLine(line + rest, false).0 == line + FirstLine(rest, false).0
  {
    hide Newline;
    var text := line + rest;
    var k := Newline(rest);
    NewlineAfter(line, rest);
    if k < |rest| {
      assert text[..|line| + k] == line + rest[..k];
      assert text[|line| + k + 1..] == rest[k + 1..];
    } else if rest == [] {
      assert text == line;
    }
  }

  /** A piece of a line in front of a text becomes part of its first line. */
  lemma SplitAfterPiece(line: string, rest: string)
    requires '\n' !in line && line != []
    ensures var more := Split(rest, true);
            Split(line + rest, true) == if more == [] then [line] else [line + more[0]] + more[1..]
  {
    hide FirstLine;
    FirstLineAfter(line, rest);
    var text := line + rest;
    var first := FirstLine(rest, true);
    assert Split(text, true) == [line + first.0] + Split(first.1, true);
    if rest == [] {
      assert line + first.0 == line && Split(text, true) == [line];
    } else {
      assert Split(rest, true) == [first.0] + Split(first.1, true);
    }
  }

  lemma FirstLineAfter(line: string, rest: string)
    requires '\n' !in line
    ensures FirstLine(line + rest, true) == (line + FirstLine(rest, true).0, FirstLine(rest, true).1)
    ensures rest == [] ==> FirstLine(rest, true) == ([], [])
  {
    hide Newline;
    var text := line + rest;
    var k := Newline(rest);
    NewlineAfter(line, rest);
    if k < |rest| {
      assert text[..|line| + k] == line + rest[..k];
      assert text[|line| + k + 1..] == rest[k + 1..];
    }
  }

  lemma {:induction false} NewlineAfter(line: string, rest: string)
    requires '\n' !in line
    ensures Newline(line + rest) == |line| + Newline(rest)
  {
    if line == [] {
      assert line + rest == rest;
    } else {
      assert (line + rest)[1..] == line[1..] + rest;
      NewlineAfter(line[1..], rest);
    }
  }

  /** `raw` are the bytes of the first line of `text`, or of a piece of it, and `left` comes after them. */
  ghost predicate RawLine(text: string, raw: string, left: string, eof: bool, truncated: bool) {
    && raw != []
    && (truncated ==> '\n' !in raw && text == raw + left)
    && (!truncated && !eof ==> raw[|raw| - 1] == '\n' && '\n' !in raw[..|raw| - 1] && text == raw + left)
    && (!truncated && eof ==> raw == text && '\n' !in text && left == [])
  }

  lemma LineTold(text: string, raw: string, left: string, line: string, eof: bool, truncated: bool, binary: bool)
    requires RawLine(text, raw, left, eof, truncated)
    requires line == if raw[|raw| - 1] == '\n' then Chomp(raw[..|raw| - 1], binary) else raw
    ensures if truncated then line == raw && '\n' !in line && text == line + left else (line, left) == FirstLine(text, binary)
    ensures if truncated then Newline(text) >= |raw| else Newline(text) == |raw| - if eof then 0 else 1
    ensures |line| <= |raw| && text != []
  {
    hide FirstLine, Newline;
    HandedOn(text, raw, left, eof, truncated, binary);
    NewlineOf(text, raw, left, eof, truncated);
  }

  /** What the raw bytes of a line mean. */
  lemma LineOf(text: string, raw: string, left: string, eof: bool, truncated: bool, binary: bool)
    requires raw != []
    requires !truncated && !eof ==> raw[|raw| - 1] == '\n' && '\n' !in raw[..|raw| - 1] && text == raw + left
    requires !truncated && eof ==> raw == text && '\n' !in text && left == []
    ensures !truncated && !eof ==> FirstLine(text, binary) == (Chomp(raw[..|raw| - 1], binary), left)
    ensures !truncated && eof ==> FirstLine(text, binary) == (raw, []) && raw[|raw| - 1] != '\n'
  {
    if !truncated && !eof {
      assert text[..|raw| - 1] == raw[..|raw| - 1];
      NewlineIs(text, |raw| - 1);
      assert text[|raw|..] == left;
    } else if !truncated {
      assert text[..|text|] == text;
      NewlineIs(text, |text|);
    }
  }

  /** Where the newline of `text` is, given the raw bytes of its first line or of a piece of it. */
  lemma NewlineOf(text: string, raw: string, left: string, eof: bool, truncated: bool)
    requires raw != []
    requires truncated ==> '\n' !in raw && text == raw + left
    requires !truncated && !eof ==> raw[|raw| - 1] == '\n' && '\n' !in raw[..|raw| - 1] && text == raw + left
    requires !truncated && eof ==> raw == text && '\n' !in text && left == []
    ensures if truncated then Newline(text) >= |raw| else Newline(text) == |raw| - if eof then 0 else 1
  {
    if truncated {
      NewlineAfter(raw, left);
    } else if eof {
      assert text[..|text|] == text;
      NewlineIs(text, |text|);
    } else {
      assert text[..|raw| - 1] == raw[..|raw| - 1];
      NewlineIs(text, |raw| - 1);
    }
  }

  /** What was handed out is the first line, and the rest is what comes after it. */
  lemma HandedOn(text: string, raw: string, left: string, eof: bool, truncated: bool, binary: bool)
    requires raw != []
    requires truncated ==> '\n' !in raw
    requires !truncated && !eof ==> raw[|raw| - 1] == '\n' && '\n' !in raw[..|raw| - 1] && text == raw + left
    requires !truncated && eof ==> raw == text && '\n' !in text && left == []
    ensures var line := if raw[|raw| - 1] == '\n' then Chomp(raw[..|raw| - 1], binary) else raw;
      && (!truncated ==> (line, left) == FirstLine(text, binary)) && (truncated ==> line == raw)
  {
    hide FirstLine, Chomp;
    LineOf(text, raw, left, eof, truncated, binary);
  }

  datatype Got = More | Full | NoMore
}
