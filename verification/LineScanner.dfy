/** How the command line client adds a line of input to the statement it is collecting. The line is edited in place:
    what is kept is written at one cursor while another one reads ahead.

    What commands and the server do is arbitrary: they may change the buffer, the delimiter and the modes of the server,
    and ask to quit. The answers to all that will be sent are given in advance. The line is treated as `LineLexing` says.
  */
module LineScanning {
  import opened ClientText
  import opened LineLexing

  /** The cursors in a line of length `n`: the writer is behind the reader, by two when a space is still to be put
      in. */
  predicate Cursors(pos: nat, out: nat, needSpace: bool, n: nat) {
    out <= pos <= n + 1 && (needSpace ==> out + 2 <= pos)
  }

  /** `t` stands at `pos` in a line of length `n`. */
  predicate StandsAt(line: array<char>, pos: nat, n: nat, t: string)
    requires n < line.Length
    reads line
  {
    pos + |t| <= n && line[pos..pos + |t|] == t
  }

  /** A line of length `n` and its NUL, with one place to spare. */
  ghost predicate IsLine(line: array<char>, n: nat)
    reads line
  {
    n + 2 <= line.Length && line[n] == NUL
  }

  /** From `pos` on, a line that leaves a string with quote `q` open, and does not end with a backslash. */
  ghost predicate InsideString(line: array<char>, pos: nat, n: nat, q: char)
    requires n < line.Length
    reads line
  {
    q != NUL && (forall i :: pos <= i < n ==> line[i] != q && line[i] != NUL) && (n > pos ==> line[n - 1] != '\\')
  }

  /** The text at `pos` written behind what was written so far. */
  function Kept(line: seq<char>, out: nat, pos: nat, pos': nat): string
    requires out <= |line| && pos <= pos' <= |line|
  {
    line[..out] + line[pos..pos']
  }

  lemma KeptNothing(line: seq<char>, out: nat, pos: nat)
    requires out <= |line| && pos <= |line|
    ensures Kept(line, out, pos, pos) == line[..out]
  {
  }

  lemma KeptOne(line: seq<char>, out: nat, pos: nat, pos': nat)
    requires out <= |line| && pos <= pos' < |line|
    ensures Kept(line, out, pos, pos' + 1) == Kept(line, out, pos, pos') + [line[pos']]
  {
    assert line[pos..pos' + 1] == line[pos..pos'] + [line[pos']];
  }

  lemma KeptMore(line: seq<char>, out: nat, pos: nat, pos': nat, end: nat)
    requires out <= |line| && pos <= pos' <= end <= |line|
    ensures Kept(line, out, pos, end) == Kept(line, out, pos, pos') + line[pos'..end]
  {
    assert line[pos..end] == line[pos..pos'] + line[pos'..end];
  }

  lemma AccMore(buffer: string, a: string, x: string)
    ensures buffer + (a + x) == (buffer + a) + x
  {
  }

  lemma AccEmpty(buffer: string, a: string)
    ensures buffer + a == "" <==> buffer == "" && a == ""
  {
    if buffer + a == "" {
      assert |buffer + a| == 0;
    }
  }

  lemma KeptIs(buffer: string, src: seq<char>, out: nat, pos: nat, pos': nat, s: string)
    requires out <= |src| && pos <= pos' <= |s| <= |src| && forall j :: pos <= j < |s| ==> s[j] == src[j]
    ensures buffer + Kept(src, out, pos, pos') == (buffer + src[..out]) + s[pos..pos']
  {
    assert src[pos..pos'] == s[pos..pos'];
    AccMore(buffer, src[..out], s[pos..pos']);
  }

  class Scanner {
    const preserveComments: bool
    const binaryMode: bool
    const multiByte: string -> nat   // the length of a multi-byte character at the front, 0 if there is none
    const commands: char -> ShortCommand   // the commands with a backslash
    const strict: bool                     // an unknown command makes the client quit
    const replies: nat -> Reply            // the answers to all that will be sent
    var ansiQuotes: bool
    var noBackslashEscapes: bool
    var buffer: string
    var delimiter: string
    var inString: char
    var mlComment: bool
    var ssComment: ServerComment
    var sent: seq<string>       // the buffer at each command and statement

    ghost predicate Valid()
      reads this
    {
      && !(inString != NUL && mlComment)
      && IsDelimiter(delimiter)
    }

    constructor (preserveComments: bool, binaryMode: bool, multiByte: string -> nat, commands: char -> ShortCommand,
                 strict: bool, replies: nat -> Reply, ansiQuotes: bool, noBackslashEscapes: bool)
      ensures Valid() && inString == NUL && !mlComment && ssComment == NoComment && buffer == "" && sent == []
      ensures Settings() == Config(";", preserveComments, binaryMode, ansiQuotes, noBackslashEscapes, multiByte, commands, strict, replies)
    {
      this.preserveComments, this.binaryMode, this.multiByte := preserveComments, binaryMode, multiByte;
      this.commands, this.strict, this.replies := commands, strict, replies;
      this.ansiQuotes, this.noBackslashEscapes := ansiQuotes, noBackslashEscapes;
      buffer, delimiter, inString, mlComment, ssComment, sent := "", ";", NUL, false, NoComment, [];
    }

    ghost function Settings(): Config
      reads this
    {
      Config(delimiter, preserveComments, binaryMode, ansiQuotes, noBackslashEscapes, multiByte, commands, strict, replies)
    }

    /** What was accepted and what is open, with `out` characters at the start of the line accepted. */
    ghost function State(line: array<char>, out: nat, needSpace: bool): Lexed
      requires out <= line.Length
      reads this, line
    {
      Lexed(buffer, buffer + line[..out], needSpace, inString, mlComment, ssComment)
    }

    /** A command, or a statement sent to the server. */
    method Execute() returns (quit: bool)
      requires Valid()
      modifies `buffer, `delimiter, `sent, `ansiQuotes, `noBackslashEscapes
      ensures Valid() && sent == old(sent + [buffer])
      ensures var r := replies(old(|sent|));
        quit == r.quit && buffer == r.buffer && Settings() == Replied(old(Settings()), old(|sent|))
    {
      var r := replies(|sent|);
      sent := sent + [buffer];
      buffer := r.buffer;
      if IsDelimiter(r.delimiter) {
        delimiter := r.delimiter;
      }
      ansiQuotes, noBackslashEscapes, quit := r.ansiQuotes, r.noBackslashEscapes, r.quit;
    }

    /** Since `sent0` was sent, a round took place as `move` says. */
    ghost predicate Did(move: Move, k: Config, s: string, i: nat, st: Lexed, sent0: seq<string>,
                        quit: bool, stop: bool, pos: nat, st': Lexed)
      requires Stands(move, k, s, i)
      reads this
    {
      sent0 <= sent && Obeys(move, k, s, i, st, |sent0|, sent[|sent0|..], quit, stop, pos, Settings(), st')
    }

    /** Moves what was accepted so far to the buffer. */
    method Flush(line: array<char>, out: nat) returns (out': nat)
      requires Valid() && out <= line.Length
      modifies `buffer
      ensures Valid() && out' == 0 && buffer == old(buffer) + line[..out]
    {
      if out != 0 {
        buffer := buffer + line[..out];
      }
      out' := 0;
    }

    /** A multi-byte character of `length` bytes. */
    method MultiByte(line: array<char>, n: nat, pos: nat, out: nat, ghost needSpace: bool, length: nat, ghost s: string)
      returns (pos': nat, out': nat)
      requires Valid() && IsLine(line, n) && pos < n && Cursors(pos, out, needSpace, n) && 1 <= length <= n - pos
      requires Ahead(line, n, pos, s)
      modifies line
      ensures Cursors(pos', out', needSpace, n) && pos' == pos + length
      ensures forall i :: pos' <= i < line.Length ==> line[i] == old(line[i])
      ensures MultiByteAt(Settings(), s, pos, old(State(line, out, needSpace)), length) == Go(pos', State(line, out', needSpace))
    {
      hide Kept;
      ghost var src := line[..];
      pos', out' := pos, out;
      if !mlComment || preserveComments {
        var left := length;
        KeptNothing(src, out, pos);
        while left > 0
          invariant left <= length && pos' == pos + (length - left) && out' == out + (length - left)
          invariant line[..out'] == Kept(src, out, pos, pos')
          invariant forall i :: pos' <= i < line.Length ==> line[i] == src[i]
        {
          KeptOne(src, out, pos, pos');
          ghost var before := line[..out'];
          line[out'] := line[pos'];
          assert line[..out' + 1] == before + [src[pos']];
          pos', out', left := pos' + 1, out' + 1, left - 1;
        }
        KeptIs(buffer, src, out, pos, pos', s);
      } else {
        pos' := pos' + length;
      }
    }

    /** A character after a backslash: part of the text, or a short command. */
    method Backslash(line: array<char>, n: nat, pos: nat, out: nat, ghost needSpace: bool, ghost s: string)
      returns (pos': nat, out': nat, stop: bool, quit: bool)
      requires Valid() && IsLine(line, n) && pos < n && line[pos] == '\\' && Cursors(pos, out, needSpace, n)
      requires Ahead(line, n, pos, s)
      modifies line, `buffer, `delimiter, `sent, `ansiQuotes, `noBackslashEscapes
      ensures Valid() && pos < pos' && Cursors(pos', out', needSpace, n) && old(sent) <= sent
      ensures forall i :: pos' <= i < line.Length ==> line[i] == old(line[i])
      ensures pos' == n + 1 ==> binaryMode && inString != NUL
      ensures var k, st := old(Settings()), old(State(line, out, needSpace));
        Did(BackslashAt(k, s, pos, st), k, s, pos, st, old(sent), quit, stop, pos', State(line, out', needSpace))
    {
      pos', out', stop, quit := pos + 1, out, false, false;
      var c := line[pos'];
      if c == NUL && (!binaryMode || inString == NUL) {
        stop := true;
      } else if inString != NUL || c == 'N' {
        AccMore(buffer, line[..out], ['\\', c]);
        line[out], line[out + 1] := '\\', c;
        pos', out' := pos + 2, out + 2;
        assert line[..out'] == old(line[..])[..out] + ['\\', c];
      } else {
        pos', out', quit := TakeCommand(line, n, pos, out, needSpace, s);
      }
    }

    /** A command with a backslash is executed and its parameters are passed over; an unknown one is text. */
    method TakeCommand(line: array<char>, n: nat, pos: nat, out: nat, ghost needSpace: bool, ghost s: string)
      returns (pos': nat, out': nat, quit: bool)
      requires Valid() && IsLine(line, n) && pos + 1 < n && line[pos] == '\\' && Cursors(pos, out, needSpace, n)
      requires Ahead(line, n, pos, s)
      modifies line, `buffer, `delimiter, `sent, `ansiQuotes, `noBackslashEscapes
      ensures Valid() && pos + 2 <= pos' <= n && Cursors(pos', out', needSpace, n)
      ensures forall i :: pos' <= i < line.Length ==> line[i] == old(line[i])
      ensures var k, st := old(Settings()), old(State(line, out, needSpace));
        Did(Command, k, s, pos, st, old(sent), quit, false, pos', State(line, out', needSpace))
    {
      hide ParametersEnd;
      var c := line[pos + 1];
      pos' := pos + 2;
      if commands(c) != NoCommand {
        pos', out', quit := RunCommand(line, n, pos, out, s, commands(c) == WithParameters);
        assert buffer + line[..0] == buffer;
      } else {
        quit := strict;
        AccMore(buffer, line[..out], ['\\', c]);
        line[out], line[out + 1] := '\\', c;
        out' := out + 2;
        assert line[..out'] == old(line[..])[..out] + ['\\', c];
      }
    }

    method RunCommand(line: array<char>, n: nat, pos: nat, out: nat, ghost s: string, parameters: bool)
      returns (pos': nat, out': nat, quit: bool)
      requires Valid() && IsLine(line, n) && pos + 1 < n && out <= pos && Ahead(line, n, pos, s)
      modifies `buffer, `delimiter, `sent, `ansiQuotes, `noBackslashEscapes
      ensures Valid() && pos + 2 <= pos' <= n && out' == 0 && sent == old(sent + [buffer + line[..out]])
      ensures var r := replies(old(|sent|));
        quit == r.quit && buffer == r.buffer && Settings() == Replied(old(Settings()), old(|sent|))
      ensures !quit ==> pos' == if parameters then ParametersEnd(Settings(), s, pos + 2, ssComment) else pos + 2
    {
      hide ParametersEnd;
      pos' := pos + 2;
      out' := Flush(line, out);
      quit := Execute();
      if !quit && parameters {
        ghost var at;
        pos', at := SkipParameters(line, n, pos + 2);
        ParametersEndAt(line, n, pos + 2, at, s);
      }
    }

    /** What a command leaves of the line is where its parameters end. */
    lemma {:induction false} ParametersEndAt(line: array<char>, n: nat, pos: nat, at: nat, s: string)
      requires Valid() && IsLine(line, n) && Ahead(line, n, pos, s) && pos <= at <= n && EndsParameters(line, n, at)
      requires forall i :: pos <= i < at ==> !EndsParameters(line, n, i)
      ensures ParametersEnd(Settings(), s, pos, ssComment) ==
              at + if line[at] == NUL || ssComment != NoComment then 0 else |delimiter|
      decreases at - pos
    {
      if pos < n {
        SameMarks(line, n, pos, s);
        hide StandsAt, StandsIn, CommentEndsAt;
        if pos < at {
          assert !EndsParameters(line, n, pos);
          ParametersEndAt(line, n, pos + 1, at, s);
        }
      }
    }

    /** Where the parameters of a command end: at the end of the line, of a server comment, or at a delimiter. */
    predicate EndsParameters(line: array<char>, n: nat, pos: nat)
      requires IsLine(line, n) && pos <= n
      reads this, line
    {
      || line[pos] == NUL
      || (if ssComment != NoComment then line[pos] == '*' && line[pos + 1] == '/' else StandsAt(line, pos, n, delimiter))
    }

    /** To the first place `at` where the parameters of a command end, and past the delimiter if that ends them. */
    method SkipParameters(line: array<char>, n: nat, pos: nat) returns (pos': nat, ghost at: nat)
      requires Valid() && IsLine(line, n) && pos <= n
      ensures pos <= at <= pos' <= n && EndsParameters(line, n, at)
      ensures forall i :: pos <= i < at ==> !EndsParameters(line, n, i)
      ensures pos' == at + if line[at] == NUL || ssComment != NoComment then 0 else |delimiter|
    {
      pos' := pos;
      if ssComment != NoComment {
        while line[pos'] != NUL && (line[pos'] != '*' || line[pos' + 1] != '/')
          invariant pos <= pos' <= n && forall i :: pos <= i < pos' ==> !EndsParameters(line, n, i)
          decreases n - pos'
        {
          pos' := pos' + 1;
        }
        at := pos';
      } else {
        while line[pos'] != NUL && !StandsAt(line, pos', n, delimiter)
          invariant pos <= pos' <= n && forall i :: pos <= i < pos' ==> !EndsParameters(line, n, i)
          decreases n - pos'
        {
          pos' := pos' + 1;
        }
        at := pos';
        if line[pos'] != NUL {
          pos' := pos' + |delimiter|;
        }
      }
    }

    /** The first NUL from `pos` on. */
    method EndOf(line: array<char>, n: nat, pos: nat) returns (end: nat)
      requires IsLine(line, n) && pos <= n
      ensures pos <= end <= n && line[end] == NUL && forall i :: pos <= i < end ==> line[i] != NUL
    {
      end := pos;
      while line[end] != NUL
        invariant pos <= end <= n && forall i :: pos <= i < end ==> line[i] != NUL
        decreases n - end
      {
        end := end + 1;
      }
    }

    /** A comment that is sent with the statement before it. */
    predicate Trails(line: array<char>, n: nat, pos: nat)
      requires IsLine(line, n) && pos <= n
      reads line
    {
      line[pos] == '#' || (line[pos] == '-' && line[pos + 1] == '-' && IsSpace(line[pos + 2]))
    }

    /** The delimiter: the statement is complete and is executed. With comments preserved, the white space behind the
        delimiter and a comment behind that, from `at` on, go with it. */
    method AtDelimiter(line: array<char>, n: nat, pos: nat, out: nat, ghost needSpace: bool)
      returns (pos': nat, out': nat, quit: bool, ghost at: nat)
      requires Valid() && IsLine(line, n) && pos < n && Cursors(pos, out, needSpace, n)
      requires StandsAt(line, pos, n, delimiter)
      modifies line, `buffer, `delimiter, `sent, `ansiQuotes, `noBackslashEscapes
      ensures Valid() && pos < pos' <= n && out' == 0
      ensures forall i :: pos' <= i < line.Length ==> line[i] == old(line[i])
      ensures quit == replies(old(|sent|)).quit && (!quit ==> buffer == "") && Settings() == Replied(old(Settings()), old(|sent|))
      ensures pos + |old(delimiter)| <= at <= pos' && sent == old(sent) + [old(buffer) +
        Kept(old(line[..]), out, pos + |old(delimiter)|, pos')]
      ensures !preserveComments ==> pos' == at == pos + |old(delimiter)|
      ensures preserveComments ==>
        && (forall i :: pos + |old(delimiter)| <= i < at ==> IsSpace(old(line[i]))) && !IsSpace(old(line[at]))
        && (if old(Trails(line, n, at)) then old(line[pos']) == NUL && forall i :: at <= i < pos' ==> old(line[i]) != NUL
            else pos' == at)
    {
      hide Kept;
      pos', at := CollectTail(line, n, pos + |delimiter|, out);
      out' := 0;
      quit := Execute();
      if !quit {
        buffer := "";
      }
    }

    /** Moves what was accepted to the buffer, and what goes with it from behind the delimiter. */
    method CollectTail(line: array<char>, n: nat, from: nat, out: nat) returns (pos': nat, ghost at: nat)
      requires Valid() && IsLine(line, n) && out < from <= n
      modifies line, `buffer
      ensures Valid() && from <= at <= pos' <= n
      ensures forall i :: pos' <= i < line.Length ==> line[i] == old(line[i])
      ensures buffer == old(buffer) + Kept(old(line[..]), out, from, pos')
      ensures !preserveComments ==> pos' == at == from
      ensures preserveComments ==>
        && (forall i :: from <= i < at ==> IsSpace(old(line[i]))) && !IsSpace(old(line[at]))
        && (if old(Trails(line, n, at)) then old(line[pos']) == NUL && forall i :: at <= i < pos' ==> old(line[i]) != NUL
            else pos' == at)
    {
      hide Kept;
      ghost var src := line[..];
      var out' := out;
      pos' := from;
      KeptNothing(src, out, from);
      if preserveComments {
        pos', out' := KeepSpaces(line, n, from, out);
      }
      at := pos';
      ghost var kept := line[..out'];
      out' := Flush(line, out');
      if preserveComments && Trails(line, n, pos') {
        var end := EndOf(line, n, pos');
        KeptMore(src, out, from, at, end);
        assert line[pos'..end] == src[at..end];
        buffer := buffer + line[pos'..end];
        assert buffer == old(buffer) + (kept + src[at..end]);
        pos' := end;
      }
    }

    /** Keeps the white space from `pos` on. */
    method KeepSpaces(line: array<char>, n: nat, pos: nat, out: nat) returns (pos': nat, out': nat)
      requires IsLine(line, n) && out < pos <= n
      modifies line
      ensures pos <= pos' <= n && out' < pos' && line[..out'] == Kept(old(line[..]), out, pos, pos')
      ensures forall i :: pos' <= i < line.Length ==> line[i] == old(line[i])
      ensures (forall i :: pos <= i < pos' ==> IsSpace(old(line[i]))) && !IsSpace(line[pos'])
    {
      hide Kept;
      ghost var src := line[..];
      pos', out' := pos, out;
      KeptNothing(src, out, pos);
      while IsSpace(line[pos'])
        invariant pos <= pos' <= n && out' < pos'
        invariant line[..out'] == Kept(src, out, pos, pos')
        invariant forall i :: pos' <= i < line.Length ==> line[i] == src[i]
        invariant forall i :: pos <= i < pos' ==> IsSpace(src[i])
        decreases n - pos'
      {
        KeptOne(src, out, pos, pos');
        ghost var before := line[..out'];
        line[out'] := line[pos'];
        assert line[..out' + 1] == before + [src[pos']];
        pos', out' := pos' + 1, out' + 1;
      }
    }

    /** A comment to the end of the line, which may have to be sent on its own. */
    method LineComment(line: array<char>, n: nat, pos: nat, out: nat) returns (out': nat, quit: bool, ghost end: nat)
      requires Valid() && IsLine(line, n) && pos < n && out <= pos
      modifies `buffer, `delimiter, `sent, `ansiQuotes, `noBackslashEscapes
      ensures Valid() && out' == 0
      ensures pos <= end <= n
      ensures preserveComments ==> line[end] == NUL && forall i :: pos <= i < end ==> line[i] != NUL
      ensures var before := old(buffer) + line[..out];
        if !preserveComments then !quit && buffer == before && sent == old(sent) && Settings() == old(Settings())
        else if before != "" then !quit && buffer == before + line[pos..end] && sent == old(sent) && Settings() == old(Settings())
        else
          && sent == old(sent) + [line[pos..end]] && quit == replies(old(|sent|)).quit && (!quit ==> buffer == "")
          && Settings() == Replied(old(Settings()), old(|sent|))
    {
      quit, end := false, pos;
      out' := Flush(line, out);
      if preserveComments {
        var startedWithNothing := buffer == "";
        var e := EndOf(line, n, pos);
        end := e;
        buffer := buffer + line[pos..e];
        if startedWithNothing {
          assert buffer == line[pos..e];
          quit := Execute();
          if !quit {
            buffer := "";
          }
        }
      }
    }

    /** The two characters that open or close a comment. */
    method CommentMark(line: array<char>, n: nat, pos: nat, out: nat, needSpace: bool, opens: bool)
      returns (pos': nat, out': nat, needSpace': bool)
      requires Valid() && IsLine(line, n) && pos + 1 < n && Cursors(pos, out, needSpace, n) && (opens ==> inString == NUL)
      requires line[pos..pos + 2] == if opens then "/*" else "*/"
      modifies line, `buffer, `mlComment
      ensures Valid() && Cursors(pos', out', needSpace', n) && out' == 0
      ensures forall i :: pos' <= i < line.Length ==> line[i] == old(line[i])
      ensures MarkAt(Settings(), pos, old(State(line, out, needSpace)), opens) == Go(pos', State(line, out', needSpace'))
    {
      pos', out', needSpace' := pos + 2, out, needSpace || !opens;
      ghost var src := line[..];
      if preserveComments {
        assert line[pos..pos + 2] == [line[pos], line[pos + 1]];
        AccMore(buffer, src[..out], line[pos..pos + 2]);
        line[out], line[out + 1] := line[pos], line[pos + 1];
        out' := out + 2;
        assert line[..out'] == src[..out] + src[pos..pos + 2];
      }
      mlComment := opens;
      out' := Flush(line, out');
      assert buffer + line[..0] == buffer;
    }

    /** Writes a character, with a space in front of it if one is due. */
    method Put(line: array<char>, n: nat, pos: nat, out: nat, needSpace: bool, c: char) returns (out': nat)
      requires IsLine(line, n) && pos < n && Cursors(pos, out, needSpace, n) && c == line[pos]
      modifies line
      ensures out' == out + (if needSpace && !IsSpace(c) then 2 else 1) <= pos + 1
      ensures line[..out'] == old(line[..])[..out] + if needSpace && !IsSpace(c) then [' ', c] else [c]
      ensures buffer + line[..out'] == Accept(old(buffer + line[..out]), needSpace, c)
      ensures forall i :: pos < i < line.Length ==> line[i] == old(line[i])
    {
      out' := out;
      if needSpace && !IsSpace(c) {
        line[out'] := ' ';
        out' := out' + 1;
      }
      line[out'] := c;
      out' := out' + 1;
      assert line[..out] == old(line[..])[..out];
      AccMore(buffer, old(line[..out]), if needSpace && !IsSpace(c) then [' ', c] else [c]);
    }

    /** Any other character. */
    method Ordinary(line: array<char>, n: nat, pos: nat, out: nat, needSpace: bool, ghost s: string)
      returns (pos': nat, out': nat, needSpace': bool)
      requires Valid() && IsLine(line, n) && pos < n && Cursors(pos, out, needSpace, n) && Ahead(line, n, pos, s)
      modifies line, `inString, `ssComment
      ensures Valid() && pos < pos' <= n && Cursors(pos', out', needSpace', n)
      ensures forall i :: pos' <= i < line.Length ==> line[i] == old(line[i])
      ensures OrdinaryAt(Settings(), s, pos, old(State(line, out, needSpace))) == Go(pos', State(line, out', needSpace'))
    {
      hide Accept, IsSpace, QuoteAfter;
      pos', out', needSpace' := pos + 1, out, needSpace;
      var c := line[pos];
      Next3(line, n, pos, s);
      if inString == NUL && c == '/' && line[pos + 1] == '*' {
        if line[pos + 2] == '!' {
          ssComment := Conditional;
        } else if line[pos + 2] == '+' {
          ssComment := Hint;
        }
      } else if inString == NUL && ssComment != NoComment && c == '*' && line[pos + 1] == '/' {
        ssComment := NoComment;
        pos', out' := PutEnd(line, n, pos, out);
        return;
      }
      TakeQuote(c);
      if !mlComment || preserveComments {
        out' := Put(line, n, pos, out, needSpace, c);
        needSpace' := false;
      }
    }

    /** Writes the end of a server comment. */
    method PutEnd(line: array<char>, n: nat, pos: nat, out: nat) returns (pos': nat, out': nat)
      requires IsLine(line, n) && out <= pos && pos + 1 < n && line[pos] == '*' && line[pos + 1] == '/'
      modifies line
      ensures pos' == pos + 2 && out' == out + 2 && buffer + line[..out'] == old(buffer + line[..out]) + "*/"
      ensures forall i :: pos' <= i < line.Length ==> line[i] == old(line[i])
    {
      line[out], line[out + 1] := line[pos], line[pos + 1];
      pos', out' := pos + 2, out + 2;
      assert line[..out'] == old(line[..out]) + "*/";
      AccMore(buffer, old(line[..out]), "*/");
    }

    /** A quote opens or closes a string. */
    method TakeQuote(c: char)
      requires Valid()
      modifies `inString
      ensures Valid()
      ensures inString == QuoteAfter(old(inString), !mlComment && ssComment != Hint, c)
    {
      if c == inString {
        inString := NUL;
      } else if !mlComment && inString == NUL && ssComment != Hint && (c == '\'' || c == '\"' || c == '`') {
        inString := c;
      }
    }

    /** `s` is the line as far as it is still to be read. */
    ghost predicate Ahead(line: array<char>, n: nat, pos: nat, s: string)
      reads line
    {
      |s| == n < line.Length && forall j :: pos <= j < n ==> s[j] == line[j]
    }

    /** The next characters, which are only looked at as far as the line goes. */
    lemma Next3(line: array<char>, n: nat, pos: nat, s: string)
      requires IsLine(line, n) && pos < n && Ahead(line, n, pos, s)
      ensures CharAt(s, pos) == line[pos] && CharAt(s, pos + 1) == line[pos + 1]
      ensures pos + 1 < n ==> CharAt(s, pos + 2) == line[pos + 2]
      ensures pos + 2 < n ==> CharAt(s, pos + 3) == line[pos + 3]
      ensures pos + 1 == n ==> line[pos + 1] == NUL
      ensures pos + 2 == n ==> line[pos + 2] == NUL
    {
    }

    /** A comment that only the client sees starts here. */
    predicate OpensComment(line: array<char>, n: nat, pos: nat)
      requires IsLine(line, n) && pos < n
      reads this, line
    {
      && inString == NUL && line[pos] == '/' && line[pos + 1] == '*' && line[pos + 2] != '!'
      && !(line[pos + 2] == 'M' && line[pos + 3] == '!') && line[pos + 2] != '+' && ssComment != Hint
    }

    predicate StartsLineComment(line: array<char>, n: nat, pos: nat, atStart: bool)
      requires IsLine(line, n) && pos < n
      reads line
    {
      || line[pos] == '#'
      || (line[pos] == '-' && line[pos + 1] == '-' && (IsSpace(line[pos + 2]) || line[pos + 2] == NUL || atStart))
    }

    /** What stands at `pos`, in the line and as it is still to be read. */
    lemma SameMarks(line: array<char>, n: nat, pos: nat, s: string)
      requires IsLine(line, n) && pos < n && Ahead(line, n, pos, s)
      ensures StandsAt(line, pos, n, delimiter) == StandsIn(s, pos, delimiter)
      ensures forall b :: StartsLineComment(line, n, pos, b) == LineCommentAt(s, pos, b)
      ensures OpensComment(line, n, pos) == (inString == NUL && ssComment != Hint && CommentAt(s, pos))
      ensures CommentEndsAt(s, pos) == (line[pos] == '*' && line[pos + 1] == '/')
    {
      Next3(line, n, pos, s);
      if pos + |delimiter| <= n {
        assert line[pos..pos + |delimiter|] == s[pos..pos + |delimiter|];
      }
    }

    /** A character that is neither part of a multi-byte character nor an escape. */
    method StepOther(line: array<char>, n: nat, pos: nat, out: nat, needSpace: bool, ghost s: string)
      returns (pos': nat, out': nat, needSpace': bool, stop: bool, quit: bool)
      requires Valid() && IsLine(line, n) && pos < n && Cursors(pos, out, needSpace, n) && Ahead(line, n, pos, s)
      modifies line, this
      ensures Valid() && pos <= pos' <= n && (!stop && !quit ==> pos < pos') && Cursors(pos', out', needSpace', n) && old(sent) <= sent
      ensures forall i :: pos' <= i < line.Length ==> line[i] == old(line[i])
      ensures var k, st := old(Settings()), old(State(line, out, needSpace));
        Did(MarksAt(k, s, pos, st), k, s, pos, st, old(sent), quit, stop, pos', State(line, out', needSpace'))
    {
      SameMarks(line, n, pos, s);
      FieldsOf(line, out, needSpace);
      hide Kept, OrdinaryAt, MarkAt, LineCommentAt, CommentAt, CommentEndsAt, StandsAt, StandsIn, IsSpace;
      hide Scanner.OpensComment, Scanner.StartsLineComment, Scanner.State, DelimiterRound, CommentRound;
      pos', out', needSpace', stop, quit := pos + 1, out, needSpace, false, false;
      if !mlComment && inString == NUL && ssComment != Hint && StandsAt(line, pos, n, delimiter) {
        pos', out', quit := SendAtDelimiter(line, n, pos, out, needSpace, s);
      } else if !mlComment && ssComment != Hint && inString == NUL &&
                StartsLineComment(line, n, pos, buffer == "" && out == 0)
      {
        out', quit := TrailingComment(line, n, pos, out, needSpace, s);
        stop := true;
      } else if OpensComment(line, n, pos) {
        MarkIs(line, n, pos, true);
        pos', out', needSpace' := CommentMark(line, n, pos, out, needSpace, true);
      } else if mlComment && ssComment == NoComment && line[pos] == '*' && line[pos + 1] == '/' {
        MarkIs(line, n, pos, false);
        pos', out', needSpace' := CommentMark(line, n, pos, out, needSpace, false);
      } else {
        pos', out', needSpace' := Ordinary(line, n, pos, out, needSpace, s);
      }
    }

    /** One round of the loop. */
    method Step(line: array<char>, n: nat, pos: nat, out: nat, needSpace: bool, ghost s: string)
      returns (pos': nat, out': nat, needSpace': bool, stop: bool, quit: bool)
      requires Valid() && IsLine(line, n) && pos < n && Cursors(pos, out, needSpace, n) && Ahead(line, n, pos, s)
      modifies line, this
      ensures Valid() && pos <= pos' && (!stop && !quit ==> pos < pos') && Cursors(pos', out', needSpace', n) && old(sent) <= sent
      ensures forall i :: pos' <= i < line.Length ==> line[i] == old(line[i])
      ensures pos' == n + 1 ==> binaryMode && inString != NUL
      ensures var k, st := old(Settings()), old(State(line, out, needSpace));
        && Stands(MoveAt(k, s, pos, st), k, s, pos)
        && Did(MoveAt(k, s, pos, st), k, s, pos, st, old(sent), quit, stop, pos', State(line, out', needSpace'))
    {
      FieldsOf(line, out, needSpace);
      MoveStands(Settings(), s, pos, State(line, out, needSpace));
      hide Kept, MarksAt, BackslashAt, MultiByteAt, IsSpace, Scanner.State, DelimiterRound, CommentRound;
      pos', out', needSpace', stop, quit := pos + 1, out, needSpace, false, false;
      var c := line[pos];
      assert line[pos..n] == s[pos..] && c == s[pos];
      if !preserveComments && IsSpace(c) && out == 0 && buffer == "" {
        return;
      }
      var length := multiByte(line[pos..n]);
      if 1 <= length <= n - pos {
        pos', out' := MultiByte(line, n, pos, out, needSpace, length, s);
        return;
      }
      if !mlComment && c == '\\' && inString != '`' && !(inString == '\"' && ansiQuotes) &&
         !(inString != NUL && noBackslashEscapes)
      {
        pos', out', stop, quit := Backslash(line, n, pos, out, needSpace, s);
      } else {
        pos', out', needSpace', stop, quit := StepOther(line, n, pos, out, needSpace, s);
      }
    }

    /** What a state consists of. */
    lemma FieldsOf(line: array<char>, out: nat, needSpace: bool)
      requires out <= line.Length
      ensures var st := State(line, out, needSpace);
        && st.inString == inString && st.mlComment == mlComment && st.ssComment == ssComment
        && (st.acc == "" <==> out == 0 && buffer == "")
    {
      AccEmpty(buffer, line[..out]);
    }

    lemma MarkIs(line: array<char>, n: nat, pos: nat, opens: bool)
      requires IsLine(line, n) && pos < n
      requires if opens then OpensComment(line, n, pos) else line[pos] == '*' && line[pos + 1] == '/'
      ensures pos + 1 < n && line[pos..pos + 2] == if opens then "/*" else "*/"
    {
      assert line[pos..pos + 2] == [line[pos], line[pos + 1]];
    }

    /** At a delimiter, what was accepted is sent. */
    method SendAtDelimiter(line: array<char>, n: nat, pos: nat, out: nat, ghost needSpace: bool, ghost s: string)
      returns (pos': nat, out': nat, quit: bool)
      requires Valid() && IsLine(line, n) && pos < n && Cursors(pos, out, needSpace, n) && Ahead(line, n, pos, s)
      requires StandsAt(line, pos, n, delimiter) && StandsIn(s, pos, delimiter)
      modifies line, `buffer, `delimiter, `sent, `ansiQuotes, `noBackslashEscapes
      ensures Valid() && pos < pos' <= n && out' == 0 && Cursors(pos', out', needSpace, n)
      ensures forall i :: pos' <= i < line.Length ==> line[i] == old(line[i])
      ensures var k, st := old(Settings()), old(State(line, out, needSpace));
        Did(Delimiter, k, s, pos, st, old(sent), quit, false, pos', State(line, out', needSpace))
    {
      hide Kept, TailEnd;
      ghost var at, k, was, src := 0, Settings(), buffer, line[..];
      ghost var from := pos + |delimiter|;
      pos', out', quit, at := AtDelimiter(line, n, pos, out, needSpace);
      TailIs(k, src, s, from, at, pos');
      KeptIs(was, src, out, from, pos', s);
      assert buffer + line[..0] == buffer;
    }

    method TrailingComment(line: array<char>, n: nat, pos: nat, out: nat, ghost needSpace: bool, ghost s: string)
      returns (out': nat, quit: bool)
      requires Valid() && IsLine(line, n) && pos < n && out <= pos && Ahead(line, n, pos, s)
      modifies `buffer, `delimiter, `sent, `ansiQuotes, `noBackslashEscapes
      ensures Valid() && out' == 0
      ensures var k, st := old(Settings()), old(State(line, out, needSpace));
        Did(Comment, k, s, pos, st, old(sent), quit, true, pos, State(line, out', needSpace))
    {
      hide NulEnd;
      ghost var end, acc := 0, buffer + line[..out];
      out', quit, end := LineComment(line, n, pos, out);
      if preserveComments {
        NulEndIs(s, pos, end);
        assert line[pos..end] == s[pos..end];
        assert acc == "" ==> acc + s[pos..end] == s[pos..end];
      }
      assert buffer + line[..0] == buffer;
    }

    /** What comes of a line that is lexed as `o`. */
    ghost predicate Treated(o: Outcome, sent0: seq<string>, truncated: bool, quit: bool)
      reads this
    {
      match o.end
      case Finished(k, st) =>
        && !quit && sent == sent0 + o.sent && Settings() == k
        && inString == st.inString && mlComment == st.mlComment && ssComment == st.ssComment
        && |st.flushed| <= |st.acc| && buffer == BufferAfter(k, st, truncated)
      case Quits => quit && sent == sent0 + o.sent
      case Stuck => false
    }

    /** At the end of a line: a newline, and all to the buffer. */
    method FinishLine(line: array<char>, n: nat, out: nat, truncated: bool, ghost needSpace: bool)
      requires Valid() && out <= n + 1 && n + 2 <= line.Length
      modifies line, `buffer
      ensures Valid() && buffer == BufferAfter(old(Settings()), old(State(line, out, needSpace)), truncated)
      ensures forall i :: 0 <= i < line.Length && i != out ==> line[i] == old(line[i])
    {
      ghost var acc := buffer + line[..out];
      AccEmpty(buffer, line[..out]);
      if out != 0 || buffer != "" {
        var stop := out;
        assert acc[|buffer|..] == line[..out];
        if !truncated && (!SetsDelimiter(line[..out]) || inString != NUL || mlComment) {
          AccMore(buffer, line[..out], "\n");
          line[out] := '\n';
          stop := out + 1;
          assert line[..stop] == old(line[..out]) + "\n";
        }
        if !mlComment || preserveComments {
          buffer := buffer + line[..stop];
        }
      }
    }

    /** Adds a line of length `n` to the buffer. Whatever the line, the options and the server do, the writer never
        gets past the end of the line, but for a line that ends with a backslash in a string in binary mode. The line
        is treated as `Lex` says; a line inside a string that does not end it is kept as it is. */
    method AddLine(line: array<char>, n: nat, truncated: bool) returns (quit: bool)
      requires Valid() && IsLine(line, n)
      modifies line, this
      ensures Valid() && old(sent) <= sent
      ensures !(binaryMode && inString != NUL) ==> forall i :: n < i < line.Length ==> line[i] == old(line[i])
      ensures old(n == 0 || line[0] != NUL || buffer != "") ==>
        Treated(old(Lex(Settings(), line[..n], 0, State(line, 0, false), |sent|)), old(sent), truncated, quit)
      ensures old(InsideString(line, 0, n, inString) && !mlComment && buffer != "") ==>
        !quit && inString == old(inString) && buffer == old(buffer + line[..n]) + if truncated then "" else "\n"
    {
      hide Lex, BufferAfter, MoveAt, Obeys;
      ghost var s, sent0 := line[..n], sent;
      ghost var res := Lex(Settings(), s, 0, State(line, 0, false), |sent|);
      StartOfLine(line, n, truncated);
      quit := false;
      if line[0] == NUL && buffer == "" {
        return;
      }
      var pos: nat, out: nat, needSpace := 0, 0, false;
      var stop := false;
      while pos < n && !stop
        invariant Valid() && (pos <= n ==> IsLine(line, n)) && Cursors(pos, out, needSpace, n)
        invariant forall i :: pos <= i < line.Length ==> line[i] == old(line[i])
        invariant pos == n + 1 ==> binaryMode && inString != NUL
        invariant sent0 <= sent && !quit
        invariant Known(res, sent0, s, pos, State(line, out, needSpace), stop)
        decreases n - pos, !stop
      {
        ghost var k, st, pos0, sent1 := Settings(), State(line, out, needSpace), pos, sent;
        pos, out, needSpace, stop, quit := Step(line, n, pos, out, needSpace, s);
        OneMore(res, sent0, k, s, pos0, st, sent1, quit, stop, pos, State(line, out, needSpace));
        if quit {
          return;
        }
      }
      if !stop {
        LexEnd(Settings(), s, pos, State(line, out, needSpace), |sent|);
      }
      FinishLine(line, n, out, truncated, needSpace);
    }

    /** What is known of the rest of the line makes up what is known of the line. */
    ghost predicate Known(res: Outcome, sent0: seq<string>, s: string, pos: nat, st: Lexed, stop: bool)
      reads this
    {
      && sent0 <= sent
      && res == if stop then Outcome(sent[|sent0|..], Finished(Settings(), st))
                else Behind(sent[|sent0|..], Lex(Settings(), s, pos, st, |sent|))
    }

    lemma OneMore(res: Outcome, sent0: seq<string>, k: Config, s: string, pos: nat, st: Lexed, sent1: seq<string>,
                  quit: bool, stop: bool, pos': nat, st': Lexed)
      requires pos < |s| && Stands(MoveAt(k, s, pos, st), k, s, pos)
      requires sent0 <= sent1 && res == Behind(sent1[|sent0|..], Lex(k, s, pos, st, |sent1|))
      requires Did(MoveAt(k, s, pos, st), k, s, pos, st, sent1, quit, stop, pos', st') && (!stop && !quit ==> pos < pos')
      ensures if quit then res == Outcome(sent[|sent0|..], Quits) && sent0 <= sent
        else Known(res, sent0, s, pos', st', stop)
    {
      hide MoveAt, Lex, Obeys, StandsIn, Scanner.Settings;
      var before, added := sent1[|sent0|..], sent[|sent1|..];
      Parts(sent0, sent1, sent);
      LexObeys(k, s, pos, st, |sent1|, added, quit, stop, pos', Settings(), st');
      if !quit && !stop {
        BehindBoth(before, added, Lex(Settings(), s, pos', st', |sent|));
      }
    }

    /** A line that is empty, or inside a string. */
    lemma StartOfLine(line: array<char>, n: nat, truncated: bool)
      requires Valid() && IsLine(line, n)
      ensures n == 0 && buffer == "" ==>
        Treated(Lex(Settings(), line[..n], 0, State(line, 0, false), |sent|), sent, truncated, false)
      ensures InsideString(line, 0, n, inString) && !mlComment && buffer != "" ==>
        var st := State(line, 0, false).(acc := buffer + line[..n]);
        && Lex(Settings(), line[..n], 0, State(line, 0, false), |sent|) == Outcome([], Finished(Settings(), st))
        && BufferAfter(Settings(), st, truncated) == (buffer + line[..n]) + if truncated then "" else "\n"
    {
      var k, s, st0 := Settings(), line[..n], State(line, 0, false);
      assert buffer + line[..0] == buffer;
      if InsideString(line, 0, n, inString) && !mlComment && buffer != "" {
        hide MoveAt, Lex;
        StringKept(k, s, 0, st0, |sent|);
        assert s[0..] == s;
      }
    }
  }

  lemma Parts(a: seq<string>, b: seq<string>, c: seq<string>)
    requires a <= b <= c
    ensures a <= c && c[|a|..] == b[|a|..] + c[|b|..] && a + b[|a|..] == b && |b| + |c[|b|..]| == |c|
  {
    assert c[..|b|] == b && b[..|a|] == a;
    assert c[|a|..] == c[|a|..|b|] + c[|b|..];
  }

  lemma BehindBoth(a: seq<string>, b: seq<string>, o: Outcome)
    ensures Behind(a, Behind(b, o)) == Behind(a + b, o)
  {
    assert a + (b + o.sent) == (a + b) + o.sent;
  }

  /** White space up to `at`, and a comment that is sent too up to `end`. */
  lemma TailIs(k: Config, src: seq<char>, s: string, from: nat, at: nat, end: nat)
    requires from <= at <= end <= |s| && |s| + 2 <= |src| && src[|s|] == NUL && forall j :: from <= j < |s| ==> s[j] == src[j]
    requires !k.preserveComments ==> end == at == from
    requires k.preserveComments ==>
      && (forall i :: from <= i < at ==> IsSpace(src[i])) && !IsSpace(src[at])
      && (if src[at] == '#' || (src[at] == '-' && src[at + 1] == '-' && IsSpace(src[at + 2]))
          then src[end] == NUL && forall i :: at <= i < end ==> src[i] != NUL
          else end == at)
    ensures TailEnd(k, s, from) == end
  {
    if k.preserveComments {
      SpacesEndIs(s, from, at);
      if TrailsAt(s, at) {
        NulEndIs(s, at, end);
      }
    }
  }

  lemma {:induction false} SpacesEndIs(s: string, i: nat, end: nat)
    requires i <= end <= |s| && (forall j :: i <= j < end ==> IsSpace(s[j])) && (end < |s| ==> !IsSpace(s[end]))
    ensures SpacesEnd(s, i) == end
    decreases end - i
  {
    if i < end {
      SpacesEndIs(s, i + 1, end);
    }
  }

  lemma {:induction false} NulEndIs(s: string, i: nat, end: nat)
    requires i <= end <= |s| && (forall j :: i <= j < end ==> s[j] != NUL) && (end < |s| ==> s[end] == NUL)
    ensures NulEnd(s, i) == end
    decreases end - i
  {
    if i < end {
      NulEndIs(s, i + 1, end);
    }
  }
}
