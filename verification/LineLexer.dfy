/** What the command line client makes of the characters of a line. */
module LineLexing {
  import opened ClientText

  datatype ServerComment = NoComment | Conditional | Hint

  /** What comes back when something is sent: the client has to quit, or goes on with another delimiter and other modes
      of the server, after a command also with another buffer. A delimiter that is none leaves it as it is. */
  datatype Reply = Reply(quit: bool, buffer: string, delimiter: string, ansiQuotes: bool, noBackslashEscapes: bool)

  /** What a letter behind a backslash is. */
  datatype ShortCommand = NoCommand | Bare | WithParameters

  /** The settings that matter; `multiByte` is the length of a multi-byte character at the front, 0 if there is none,
      `commands` are the commands with a backslash, `strict` says that an unknown one makes the client quit, and `replies`
      are the answers to all that will be sent. */
  datatype Config = Config(
    delimiter: string, preserveComments: bool, binaryMode: bool, ansiQuotes: bool, noBackslashEscapes: bool,
    multiByte: string -> nat, commands: char -> ShortCommand, strict: bool, replies: nat -> Reply)

  predicate IsDelimiter(d: string) {
    d != "" && forall i :: 0 <= i < |d| ==> d[i] != NUL
  }

  /** The settings after reply number `n`. */
  function Replied(k: Config, n: nat): Config {
    var r := k.replies(n);
    k.(delimiter := if IsDelimiter(r.delimiter) then r.delimiter else k.delimiter,
       ansiQuotes := r.ansiQuotes, noBackslashEscapes := r.noBackslashEscapes)
  }

  /** What was accepted so far, how much of it was moved to the buffer already, whether a space is due, and what is
      open. */
  datatype Lexed = Lexed(flushed: string, acc: string, needSpace: bool, inString: char, mlComment: bool, ssComment: ServerComment)

  /** Where a character leads: on, to the end of the line, to a delimiter, to a comment up to the end of the line, or to
      a command. */
  datatype Move = Go(pos: nat, st: Lexed) | Stop | Delimiter | Comment | Command

  /** The character at `i`, or the NUL at the end. */
  function CharAt(s: string, i: nat): char {
    if i < |s| then s[i] else NUL
  }

  predicate StandsIn(s: string, i: nat, t: string) {
    i + |t| <= |s| && s[i..i + |t|] == t
  }

  /** A quote opens or closes a string. */
  function QuoteAfter(open: char, mayOpen: bool, c: char): char {
    if c == open then NUL
    else if mayOpen && open == NUL && (c == '\'' || c == '\"' || c == '`') then c
    else open
  }

  function Accept(acc: string, needSpace: bool, c: char): string {
    acc + if needSpace && !IsSpace(c) then [' ', c] else [c]
  }

  predicate Escapable(k: Config, st: Lexed) {
    && !st.mlComment && st.inString != '`' && !(st.inString == '\"' && k.ansiQuotes)
    && !(st.inString != NUL && k.noBackslashEscapes)
  }

  predicate LineCommentAt(s: string, i: nat, atStart: bool) {
    || CharAt(s, i) == '#'
    || (CharAt(s, i) == '-' && CharAt(s, i + 1) == '-'
        && (IsSpace(CharAt(s, i + 2)) || CharAt(s, i + 2) == NUL || atStart))
  }

  predicate CommentAt(s: string, i: nat) {
    && CharAt(s, i) == '/' && CharAt(s, i + 1) == '*' && CharAt(s, i + 2) != '!' && CharAt(s, i + 2) != '+'
    && !(CharAt(s, i + 2) == 'M' && CharAt(s, i + 3) == '!')
  }

  predicate CommentEndsAt(s: string, i: nat) {
    CharAt(s, i) == '*' && CharAt(s, i + 1) == '/'
  }

  /** A character that is none of the special cases. */
  function OrdinaryAt(k: Config, s: string, i: nat, st: Lexed): Move
    requires i < |s|
  {
    var c := s[i];
    if st.inString == NUL && st.ssComment != NoComment && CommentEndsAt(s, i) then
      Go(i + 2, st.(ssComment := NoComment, acc := st.acc + "*/"))
    else
      var ss := if st.inString == NUL && c == '/' && CharAt(s, i + 1) == '*' then
                  (if CharAt(s, i + 2) == '!' then Conditional else if CharAt(s, i + 2) == '+' then Hint else st.ssComment)
                else st.ssComment;
      var st' := st.(ssComment := ss);
      var st'' := st'.(inString := QuoteAfter(st.inString, !st.mlComment && ss != Hint, c));
      Go(i + 1, if !st.mlComment || k.preserveComments then st''.(acc := Accept(st.acc, st.needSpace, c), needSpace := false) else st'')
  }

  function BackslashAt(k: Config, s: string, i: nat, st: Lexed): Move {
    var d := CharAt(s, i + 1);
    if d == NUL && (!k.binaryMode || st.inString == NUL) then Stop
    else if st.inString != NUL || d == 'N' then Go(i + 2, st.(acc := st.acc + ['\\', d]))
    else Command
  }

  function MultiByteAt(k: Config, s: string, i: nat, st: Lexed, length: nat): Move
    requires i + length <= |s|
  {
    Go(i + length, if !st.mlComment || k.preserveComments then st.(acc := st.acc + s[i..i + length]) else st)
  }

  /** The two characters that open or close a comment. */
  function MarkAt(k: Config, i: nat, st: Lexed, opens: bool): Move {
    var acc := st.acc + if !k.preserveComments then "" else if opens then "/*" else "*/";
    Go(i + 2, st.(mlComment := opens, needSpace := st.needSpace || !opens, acc := acc, flushed := acc))
  }

  /** Outside of strings and comments: a delimiter, or a comment; the end of a comment; or any other character. */
  function MarksAt(k: Config, s: string, i: nat, st: Lexed): Move
    requires i < |s|
  {
    if !st.mlComment && st.inString == NUL && st.ssComment != Hint && StandsIn(s, i, k.delimiter) then Delimiter
    else if !st.mlComment && st.inString == NUL && st.ssComment != Hint && LineCommentAt(s, i, st.acc == "") then Comment
    else if st.inString == NUL && st.ssComment != Hint && CommentAt(s, i) then MarkAt(k, i, st, true)
    else if st.mlComment && st.ssComment == NoComment && CommentEndsAt(s, i) then MarkAt(k, i, st, false)
    else OrdinaryAt(k, s, i, st)
  }

  function MoveAt(k: Config, s: string, i: nat, st: Lexed): Move
    requires i < |s|
  {
    var length := k.multiByte(s[i..]);
    if !k.preserveComments && IsSpace(s[i]) && st.acc == "" then Go(i + 1, st)
    else if 0 < length <= |s| - i then MultiByteAt(k, s, i, st, length)
    else if s[i] == '\\' && Escapable(k, st) then BackslashAt(k, s, i, st)
    else MarksAt(k, s, i, st)
  }

  /** Where white space ends. */
  function SpacesEnd(s: string, i: nat): (j: nat)
    requires i <= |s|
    ensures i <= j <= |s|
    decreases |s| - i
  {
    if i < |s| && IsSpace(s[i]) then SpacesEnd(s, i + 1) else i
  }

  /** The next NUL, or the end. */
  function NulEnd(s: string, i: nat): (j: nat)
    requires i <= |s|
    ensures i <= j <= |s|
    decreases |s| - i
  {
    if i < |s| && s[i] != NUL then NulEnd(s, i + 1) else i
  }

  /** A comment that is sent with the statement before it. */
  predicate TrailsAt(s: string, i: nat) {
    CharAt(s, i) == '#' || (CharAt(s, i) == '-' && CharAt(s, i + 1) == '-' && IsSpace(CharAt(s, i + 2)))
  }

  /** How far the text behind a delimiter goes with the statement: nowhere, but if comments are preserved. */
  function TailEnd(k: Config, s: string, i: nat): (j: nat)
    requires i <= |s|
    ensures i <= j <= |s|
  {
    if !k.preserveComments then i
    else
      var at := SpacesEnd(s, i);
      if TrailsAt(s, at) then NulEnd(s, at) else at
  }

  /** What a round does: what it sends, whether the client quits, whether the line is used up, and what comes next. */
  datatype Round = Round(added: seq<string>, quit: bool, stop: bool, pos: nat, k: Config, st: Lexed)

  /** What was accepted is sent. */
  function DelimiterRound(k: Config, s: string, i: nat, st: Lexed, n: nat): Round
    requires StandsIn(s, i, k.delimiter)
  {
    var from := i + |k.delimiter|;
    var to := TailEnd(k, s, from);
    Round([st.acc + s[from..to]], k.replies(n).quit, false, to, Replied(k, n), st.(flushed := "", acc := ""))
  }

  /** A comment up to the end of the line: dropped, kept, or sent on its own. */
  function CommentRound(k: Config, s: string, i: nat, st: Lexed, n: nat): Round
    requires i <= |s|
  {
    var text := st.acc + s[i..NulEnd(s, i)];
    if !k.preserveComments then Round([], false, true, i, k, st.(flushed := st.acc))
    else if st.acc != "" then Round([], false, true, i, k, st.(flushed := text, acc := text))
    else Round([text], k.replies(n).quit, true, i, Replied(k, n), st.(flushed := "", acc := ""))
  }

  /** Where the parameters of a command end: at the end of the line, or of the server comment that it stands in, or
      behind a delimiter. */
  function ParametersEnd(k: Config, s: string, i: nat, ss: ServerComment): (j: nat)
    requires i <= |s|
    ensures i <= j <= |s|
    decreases |s| - i
  {
    if i == |s| || s[i] == NUL then i
    else if ss != NoComment && CommentEndsAt(s, i) then i
    else if ss == NoComment && StandsIn(s, i, k.delimiter) then i + |k.delimiter|
    else ParametersEnd(k, s, i + 1, ss)
  }

  /** A command sees what was accepted, and leaves what it likes. An unknown one is text. */
  function CommandRound(k: Config, s: string, i: nat, st: Lexed, n: nat): Round
    requires i + 1 < |s|
  {
    if k.commands(s[i + 1]) == NoCommand then Round([], k.strict, false, i + 2, k, st.(acc := st.acc + ['\\', s[i + 1]]))
    else
      var k', left := Replied(k, n), k.replies(n).buffer;
      var to := if k.commands(s[i + 1]) == Bare then i + 2 else ParametersEnd(k', s, i + 2, st.ssComment);
      Round([st.acc], k.replies(n).quit, false, to, k', st.(flushed := left, acc := left))
  }

  /** What a move needs: a delimiter, or a letter behind the backslash. */
  predicate Stands(move: Move, k: Config, s: string, i: nat) {
    i <= |s| && (move == Delimiter ==> StandsIn(s, i, k.delimiter)) && (move == Command ==> i + 1 < |s|)
  }

  function RoundOf(move: Move, k: Config, s: string, i: nat, st: Lexed, n: nat): Round
    requires Stands(move, k, s, i)
  {
    match move
    case Go(pos, st') => Round([], false, false, pos, k, st')
    case Stop => Round([], false, true, i, k, st)
    case Delimiter => DelimiterRound(k, s, i, st, n)
    case Comment => CommentRound(k, s, i, st, n)
    case Command => CommandRound(k, s, i, st, n)
  }

  /** How it goes on after a line; an empty delimiter would not. */
  datatype End = Finished(k: Config, st: Lexed) | Quits | Stuck

  datatype Outcome = Outcome(sent: seq<string>, end: End)

  function Behind(added: seq<string>, o: Outcome): Outcome {
    o.(sent := added + o.sent)
  }

  /** What comes of the line from `i` on, when `n` statements were sent before. */
  function Lex(k: Config, s: string, i: nat, st: Lexed, n: nat): Outcome
    decreases |s| - i
  {
    if i >= |s| then Outcome([], Finished(k, st))
    else
      var r := RoundOf(MoveAt(k, s, i, st), k, s, i, st, n);
      if r.quit then Outcome(r.added, Quits)
      else if r.stop then Outcome(r.added, Finished(r.k, r.st))
      else if r.pos <= i then Outcome(r.added, Stuck)
      else Behind(r.added, Lex(r.k, s, r.pos, r.st, n + |r.added|))
  }

  function Lower(c: char): char {
    if 'A' <= c <= 'Z' then c - 'A' + 'a' else c
  }

  /** Starts with the name of the command that sets the delimiter, in any case. */
  predicate SetsDelimiter(t: string) {
    |t| >= 9 && forall i :: 0 <= i < 9 ==> Lower(t[i]) == "delimiter"[i]
  }

  /** The buffer after a line. In a comment that is not preserved, what was not moved to the buffer yet is lost. */
  function BufferAfter(k: Config, st: Lexed, truncated: bool): string
    requires |st.flushed| <= |st.acc|
  {
    if st.acc == "" then ""
    else if st.mlComment && !k.preserveComments then st.flushed
    else if truncated || (SetsDelimiter(st.acc[|st.flushed|..]) && st.inString == NUL && !st.mlComment) then st.acc
    else st.acc + "\n"
  }

  /** One round, which takes place as `added`, `quit`, `stop`, `pos`, `k'` and `st'` say. */
  ghost predicate Obeys(move: Move, k: Config, s: string, i: nat, st: Lexed, n: nat,
                        added: seq<string>, quit: bool, stop: bool, pos: nat, k': Config, st': Lexed)
    requires Stands(move, k, s, i)
  {
    var r := RoundOf(move, k, s, i, st, n);
    added == r.added && quit == r.quit && (!quit ==> stop == r.stop && k' == r.k && st' == r.st && (!stop ==> pos == r.pos))
  }

  lemma MoveStands(k: Config, s: string, i: nat, st: Lexed)
    requires i < |s|
    ensures Stands(MoveAt(k, s, i, st), k, s, i) && Stands(MarksAt(k, s, i, st), k, s, i)
    ensures Stands(BackslashAt(k, s, i, st), k, s, i)
  {
  }

  lemma LexObeys(k: Config, s: string, i: nat, st: Lexed, n: nat,
                 added: seq<string>, quit: bool, stop: bool, pos: nat, k': Config, st': Lexed)
    requires i < |s| && Stands(MoveAt(k, s, i, st), k, s, i)
    requires Obeys(MoveAt(k, s, i, st), k, s, i, st, n, added, quit, stop, pos, k', st') && (!stop && !quit ==> pos > i)
    ensures Lex(k, s, i, st, n) ==
      if quit then Outcome(added, Quits)
      else if stop then Outcome(added, Finished(k', st'))
      else Behind(added, Lex(k', s, pos, st', n + |added|))
  {
    hide MoveAt, TailEnd, NulEnd, StandsIn, Replied, ParametersEnd;
  }

  lemma LexGo(k: Config, s: string, i: nat, st: Lexed, n: nat, pos: nat, st': Lexed)
    requires i < |s| && MoveAt(k, s, i, st) == Go(pos, st') && pos > i
    ensures Lex(k, s, i, st, n) == Lex(k, s, pos, st', n)
  {
    hide MoveAt, DelimiterRound, CommentRound, CommandRound;
    assert Behind([], Lex(k, s, pos, st', n)) == Lex(k, s, pos, st', n);
  }

  lemma LexDelimiter(k: Config, s: string, i: nat, st: Lexed, n: nat)
    requires i < |s| && MoveAt(k, s, i, st) == Delimiter && StandsIn(s, i, k.delimiter) && k.delimiter != ""
    ensures var from := i + |k.delimiter|;
      var to := TailEnd(k, s, from);
      Lex(k, s, i, st, n) ==
        if k.replies(n).quit then Outcome([st.acc + s[from..to]], Quits)
        else Behind([st.acc + s[from..to]], Lex(Replied(k, n), s, to, st.(flushed := "", acc := ""), n + 1))
  {
    hide MoveAt, TailEnd, Replied, CommentRound, CommandRound;
  }

  lemma LexCommand(k: Config, s: string, i: nat, st: Lexed, n: nat)
    requires i + 1 < |s| && MoveAt(k, s, i, st) == Command
    ensures var r := CommandRound(k, s, i, st, n);
      Lex(k, s, i, st, n) == if r.quit then Outcome(r.added, Quits) else Behind(r.added, Lex(r.k, s, r.pos, r.st, n + |r.added|))
  {
    hide MoveAt, Replied, CommentRound, DelimiterRound, ParametersEnd;
  }

  lemma LexEnd(k: Config, s: string, i: nat, st: Lexed, n: nat)
    requires i >= |s|
    ensures Lex(k, s, i, st, n) == Outcome([], Finished(k, st))
  {
  }

  /** Inside a string that is not closed, everything is kept as it is. */
  lemma {:induction false} StringKept(k: Config, s: string, i: nat, st: Lexed, n: nat)
    requires i <= |s| && st.inString != NUL && !st.mlComment && !st.needSpace && st.acc != ""
    requires (forall j :: i <= j < |s| ==> s[j] != st.inString && s[j] != NUL) && (i < |s| ==> s[|s| - 1] != '\\')
    ensures Lex(k, s, i, st, n) == Outcome([], Finished(k, st.(acc := st.acc + s[i..])))
    decreases |s| - i
  {
    if i < |s| {
      hide MoveAt, Lex;
      StringStep(k, s, i, st);
      var pos := MoveAt(k, s, i, st).pos;
      var st' := st.(acc := st.acc + s[i..pos]);
      LexGo(k, s, i, st, n, pos, st');
      StringKept(k, s, pos, st', n);
      Joined(st.acc, s, i, pos);
    } else {
      assert st.acc + s[i..] == st.acc;
    }
  }

  lemma Joined(acc: string, s: string, i: nat, j: nat)
    requires i <= j <= |s|
    ensures acc + s[i..j] + s[j..] == acc + s[i..]
  {
    assert s[i..] == s[i..j] + s[j..];
  }

  lemma StringStep(k: Config, s: string, i: nat, st: Lexed)
    requires i < |s| && st.inString != NUL && !st.mlComment && !st.needSpace && st.acc != ""
    requires s[i] != st.inString && (s[i] == '\\' ==> i + 1 < |s| && s[i + 1] != NUL)
    ensures var m := MoveAt(k, s, i, st);
      m.Go? && i < m.pos <= |s| && m.st == st.(acc := st.acc + s[i..m.pos])
  {
    assert s[i..i + 1] == [s[i]];
    if i + 1 < |s| {
      assert s[i..i + 2] == [s[i], s[i + 1]];
    }
  }
}
