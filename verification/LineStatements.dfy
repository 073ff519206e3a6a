/** What is sent and what is kept of a line that is put together from text, strings and comments. None of this speaks of
    the rounds that the client makes: text and strings are kept, comments leave a space, delimiters send. */
module LineStatements {
  import opened ClientText
  import opened LineLexing
  import opened LineScanning

  predicate IsQuote(c: char) {
    c == '\'' || c == '\"' || c == '`'
  }

  /** Text outside of strings and comments, the short form of a null value or a multi-byte character there, a string, a
      comment, or a comment that the server is to see. */
  datatype Segment =
    Text(t: string) | Null | Wide(t: string) | Quoted(q: char, body: string) | Remark(body: string) | Server(hint: bool, body: string)

  function Shown(g: Segment): string {
    match g
    case Text(t) => t
    case Null => "\\N"
    case Wide(t) => t
    case Quoted(q, body) => [q] + body + [q]
    case Remark(body) => "/*" + body + "*/"
    case Server(hint, body) => "/*" + [if hint then '+' else '!'] + body + "*/"
  }

  function Size(gs: seq<Segment>): nat {
    if gs == [] then 0 else |Shown(gs[0])| + Size(gs[1..])
  }

  /** Nothing special starts at `i`. */
  predicate PlainAt(k: Config, s: string, i: nat)
    requires i < |s|
  {
    && !IsQuote(s[i]) && s[i] != '\\' && s[i] != '#' && !(s[i] == '-' && CharAt(s, i + 1) == '-')
    && (s[i] == '/' && CharAt(s, i + 1) == '*' ==> CharAt(s, i + 2) == 'M' && CharAt(s, i + 3) == '!')
    && !StandsIn(s, i, k.delimiter)
  }

  /** There are no multi-byte characters from `i` to `j`. */
  predicate SingleBytes(k: Config, s: string, i: nat, j: nat)
    requires j <= |s|
  {
    forall l :: i <= l < j ==> k.multiByte(s[l..]) == 0
  }

  /** The start of a comment that the server is to see. */
  predicate ServerMarkAt(s: string, i: nat) {
    CharAt(s, i) == '/' && CharAt(s, i + 1) == '*' && (CharAt(s, i + 2) == '!' || CharAt(s, i + 2) == '+')
  }

  /** A multi-byte character of `m` bytes stands at `i`, before `e`. */
  predicate WideAt(k: Config, s: string, i: nat, m: nat, e: nat) {
    0 < m && i + m <= e <= |s| && k.multiByte(s[i..]) == m && !IsSpace(s[i])
  }

  /** In a string with quote `q`, a backslash escapes the next character. */
  predicate Escapes(k: Config, q: char) {
    q != '`' && !k.noBackslashEscapes && !(q == '\"' && k.ansiQuotes)
  }

  /** From `i` to `j` a string with quote `q` goes on. */
  predicate BodyFits(k: Config, s: string, i: nat, j: nat, q: char)
    decreases j - i
  {
    && i <= j <= |s|
    && (i < j ==>
          var m := k.multiByte(s[i..]);
          if m > 0 then WideAt(k, s, i, m, j) && BodyFits(k, s, i + m, j, q)
          else if s[i] == '\\' && Escapes(k, q) then i + 2 <= j && s[i + 1] != NUL && BodyFits(k, s, i + 2, j, q)
          else s[i] != q && BodyFits(k, s, i + 1, j, q))
  }

  /** From `i` to `e` a comment goes on: there is neither its end, nor a comment of the server, nor half of a start mark. */
  predicate RemarkFits(k: Config, s: string, i: nat, e: nat)
    decreases e - i
  {
    && i <= e <= |s|
    && (i < e ==>
          var m := k.multiByte(s[i..]);
          if m > 0 then WideAt(k, s, i, m, e) && RemarkFits(k, s, i + m, e)
          else
            && !CommentEndsAt(s, i) && !ServerMarkAt(s, i) && RemarkFits(k, s, i + 1, e)
            && (s[i] == '/' && CharAt(s, i + 1) == '*' ==> i + 1 < e && k.multiByte(s[i + 1..]) == 0))
  }

  /** From `i` to `e` a comment of the server goes on. In a hint, only its end and backslashes matter. */
  predicate ServerFits(k: Config, s: string, i: nat, e: nat, hint: bool)
    decreases e - i
  {
    && i <= e <= |s|
    && (i < e ==>
          var m := k.multiByte(s[i..]);
          if m > 0 then WideAt(k, s, i, m, e) && ServerFits(k, s, i + m, e, hint)
          else
            && !CommentEndsAt(s, i) && !ServerMarkAt(s, i) && s[i] != '\\' && (hint || PlainAt(k, s, i))
            && ServerFits(k, s, i + 1, e, hint))
  }

  /** The segment stands at `i`, and is what it says. */
  predicate FitsAt(k: Config, s: string, i: nat, g: Segment) {
    && StandsIn(s, i, Shown(g))
    && match g
       case Text(t) => SingleBytes(k, s, i, i + |t|) && forall j :: i <= j < i + |t| ==> PlainAt(k, s, j)
       case Null => k.multiByte(s[i..]) == 0
       case Wide(t) => WideAt(k, s, i, |t|, |s|)
       case Quoted(q, body) => StringAt(k, s, i) && IsQuote(q) && BodyFits(k, s, i + 1, i + 1 + |body|, q)
                               && k.multiByte(s[i + 1 + |body|..]) == 0
       case Remark(body) => !k.preserveComments && RemarkAt(k, s, i) && RemarkFits(k, s, i + 2, i + 2 + |body|)
                            && k.multiByte(s[i + 2 + |body|..]) == 0
       case Server(hint, body) => !StandsIn(s, i, k.delimiter) && k.multiByte(s[i..]) == 0 && ServerFits(k, s, i + 1, i + 3 + |body|, hint)
                                  && !StandsIn(s, i + 3 + |body|, k.delimiter) && k.multiByte(s[i + 3 + |body|..]) == 0
  }

  /** A quote that opens a string. */
  predicate StringAt(k: Config, s: string, i: nat) {
    i < |s| && IsQuote(s[i]) && !StandsIn(s, i, k.delimiter) && k.multiByte(s[i..]) == 0
  }

  /** A mark that opens a comment. */
  predicate RemarkAt(k: Config, s: string, i: nat) {
    i < |s| && CommentAt(s, i) && !StandsIn(s, i, k.delimiter) && k.multiByte(s[i..]) == 0
  }

  predicate FitAll(k: Config, s: string, i: nat, gs: seq<Segment>)
    decreases |gs|
  {
    gs == [] || (FitsAt(k, s, i, gs[0]) && FitAll(k, s, i + |Shown(gs[0])|, gs[1..]))
  }

  /** Accepting a character: not white space at the front of a statement, and after the space that is due. */
  function FeedOne(k: Config, st: Lexed, c: char): Lexed {
    if !k.preserveComments && st.acc == "" && IsSpace(c) then st
    else st.(acc := st.acc + (if st.needSpace && !IsSpace(c) then " " else "") + [c], needSpace := false)
  }

  function Feed(k: Config, st: Lexed, t: string): Lexed
    decreases |t|
  {
    if t == "" then st else Feed(k, FeedOne(k, st, t[0]), t[1..])
  }

  /** Opening a string. */
  function Opened(st: Lexed, q: char): Lexed {
    st.(acc := st.acc + (if st.needSpace then " " else "") + [q], needSpace := false, inString := q)
  }

  /** Text and strings are accepted as they are; of a comment only a space is left, due before the next character. A
      null value and a multi-byte character do not take that space. */
  function Past(k: Config, st: Lexed, g: Segment): Lexed {
    match g
    case Text(t) => Feed(k, st, t)
    case Null => st.(acc := st.acc + "\\N")
    case Wide(t) => st.(acc := st.acc + t)
    case Quoted(q, body) => st.(acc := Opened(st, q).acc + body + [q], needSpace := false)
    case Remark(_) => st.(needSpace := true, flushed := st.acc)
    case Server(_, _) => st.(acc := st.acc + (if st.needSpace then " " else "") + Shown(g), needSpace := false)
  }

  function PastAll(k: Config, st: Lexed, gs: seq<Segment>): Lexed
    decreases |gs|
  {
    if gs == [] then st else PastAll(k, Past(k, st, gs[0]), gs[1..])
  }

  predicate Calm(st: Lexed) {
    st.inString == NUL && !st.mlComment && st.ssComment == NoComment
  }

  // ----- text -----

  lemma PlainStep(k: Config, s: string, i: nat, st: Lexed)
    requires i < |s| && Calm(st) && PlainAt(k, s, i) && k.multiByte(s[i..]) == 0
    ensures MoveAt(k, s, i, st) == Go(i + 1, FeedOne(k, st, s[i])) && Calm(FeedOne(k, st, s[i]))
  {
    hide StandsIn;
  }

  lemma {:induction false} TextFed(k: Config, s: string, i: nat, j: nat, st: Lexed, n: nat)
    requires i <= j <= |s| && Calm(st) && SingleBytes(k, s, i, j) && forall l :: i <= l < j ==> PlainAt(k, s, l)
    ensures Lex(k, s, i, st, n) == Lex(k, s, j, Feed(k, st, s[i..j]), n) && Calm(Feed(k, st, s[i..j]))
    decreases j - i
  {
    hide MoveAt, Lex, PlainAt, FeedOne, Calm;
    if i < j {
      PlainStep(k, s, i, st);
      LexGo(k, s, i, st, n, i + 1, FeedOne(k, st, s[i]));
      TextFed(k, s, i + 1, j, FeedOne(k, st, s[i]), n);
      assert s[i..j][1..] == s[i + 1..j];
    }
  }

  /** Behind something that was accepted, text is accepted as it is. */
  lemma {:induction false} FedMore(k: Config, st: Lexed, t: string)
    requires !st.needSpace && (st.acc != "" || k.preserveComments)
    ensures Feed(k, st, t) == st.(acc := st.acc + t)
    decreases |t|
  {
    if t == "" {
      assert st.acc + t == st.acc;
    } else {
      FedMore(k, FeedOne(k, st, t[0]), t[1..]);
      assert st.acc + "" + [t[0]] + t[1..] == st.acc + t;
    }
  }

  /** Without a space that is due, text is accepted as it is, but for white space at the front of a statement. */
  lemma {:induction false} FedIs(k: Config, st: Lexed, t: string)
    requires !st.needSpace
    ensures Feed(k, st, t) == st.(acc := st.acc + if st.acc == "" && !k.preserveComments then t[SpacesEnd(t, 0)..] else t)
    decreases |t|
  {
    hide IsSpace;
    if st.acc != "" || k.preserveComments {
      FedMore(k, st, t);
    } else if t != "" && IsSpace(t[0]) {
      FedIs(k, st, t[1..]);
      SpacesBehind(t, 0);
      assert t[1..][SpacesEnd(t[1..], 0)..] == t[SpacesEnd(t, 0)..];
    } else if t != "" {
      FedMore(k, FeedOne(k, st, t[0]), t[1..]);
      assert st.acc + "" + [t[0]] + t[1..] == st.acc + t;
      assert t[0..] == t;
    }
  }

  /** Text after a comment is separated from what was in front of it. */
  lemma FedAfterComment(k: Config, st: Lexed, t: string)
    requires st.needSpace && st.acc != "" && t != ""
    ensures Feed(k, st, t) == st.(acc := st.acc + (if IsSpace(t[0]) then "" else " ") + t, needSpace := false)
  {
    var st' := FeedOne(k, st, t[0]);
    FedMore(k, st', t[1..]);
    assert [t[0]] + t[1..] == t;
    assert st'.acc + t[1..] == st.acc + (if IsSpace(t[0]) then "" else " ") + t;
  }

  lemma {:induction false} SpacesBehind(t: string, i: nat)
    requires t != "" && i < |t|
    ensures SpacesEnd(t, i + 1) == SpacesEnd(t[1..], i) + 1
    decreases |t| - i
  {
    if i + 1 < |t| {
      SpacesBehind(t, i + 1);
    }
  }

  // ----- strings -----

  lemma OpenStep(k: Config, s: string, i: nat, st: Lexed)
    requires Calm(st) && StringAt(k, s, i)
    ensures MoveAt(k, s, i, st) == Go(i + 1, Opened(st, s[i]))
  {
    hide StandsIn;
  }

  /** How far a round goes inside a string. */
  function InsideTo(k: Config, s: string, i: nat, q: char): nat
    requires i < |s|
  {
    var m := k.multiByte(s[i..]);
    if m > 0 then i + m else if s[i] == '\\' && Escapes(k, q) then i + 2 else i + 1
  }

  lemma InsideStep(k: Config, s: string, i: nat, j: nat, st: Lexed)
    requires IsQuote(st.inString) && !st.mlComment && st.acc != "" && !st.needSpace
    requires i < j && BodyFits(k, s, i, j, st.inString)
    ensures var pos := InsideTo(k, s, i, st.inString);
      pos <= j && MoveAt(k, s, i, st) == Go(pos, st.(acc := st.acc + s[i..pos])) && BodyFits(k, s, pos, j, st.inString)
  {
    hide StandsIn;
    assert s[i..i + 1] == [s[i]];
    if i + 1 < |s| {
      assert s[i..i + 2] == [s[i], s[i + 1]];
    }
  }

  /** Inside a string everything is kept, delimiters and comments included. */
  lemma {:induction false} BodyKept(k: Config, s: string, i: nat, j: nat, st: Lexed, n: nat)
    requires IsQuote(st.inString) && !st.mlComment && st.acc != "" && !st.needSpace
    requires i <= j <= |s| && BodyFits(k, s, i, j, st.inString)
    ensures Lex(k, s, i, st, n) == Lex(k, s, j, st.(acc := st.acc + s[i..j]), n)
    decreases j - i
  {
    hide MoveAt, Lex, BodyFits, Escapes;
    if i < j {
      var pos := InsideTo(k, s, i, st.inString);
      InsideStep(k, s, i, j, st);
      LexGo(k, s, i, st, n, pos, st.(acc := st.acc + s[i..pos]));
      BodyKept(k, s, pos, j, st.(acc := st.acc + s[i..pos]), n);
      JoinedTo(st.acc, s, i, pos, j);
    } else {
      assert st.acc + s[i..j] == st.acc;
    }
  }

  lemma JoinedTo(acc: string, s: string, i: nat, pos: nat, j: nat)
    requires i <= pos <= j <= |s|
    ensures acc + s[i..pos] + s[pos..j] == acc + s[i..j]
  {
    assert s[i..j] == s[i..pos] + s[pos..j];
  }

  lemma CloseStep(k: Config, s: string, i: nat, st: Lexed)
    requires IsQuote(st.inString) && !st.mlComment && st.acc != "" && !st.needSpace
    requires i < |s| && s[i] == st.inString && k.multiByte(s[i..]) == 0
    ensures MoveAt(k, s, i, st) == Go(i + 1, st.(acc := st.acc + [s[i]], inString := NUL))
  {
    hide StandsIn;
  }

  /** To the quote that closes it. */
  lemma StringCloses(k: Config, s: string, i: nat, j: nat, st: Lexed, n: nat)
    requires IsQuote(st.inString) && !st.mlComment && st.acc != "" && !st.needSpace
    requires i <= j < |s| && BodyFits(k, s, i, j, st.inString) && s[j] == st.inString && k.multiByte(s[j..]) == 0
    ensures Lex(k, s, i, st, n) == Lex(k, s, j + 1, st.(acc := st.acc + s[i..j] + [s[j]], inString := NUL), n)
  {
    hide MoveAt, Lex, BodyFits;
    BodyKept(k, s, i, j, st, n);
    var open := st.(acc := st.acc + s[i..j]);
    CloseStep(k, s, j, open);
    LexGo(k, s, j, open, n, j + 1, open.(acc := open.acc + [s[j]], inString := NUL));
  }

  lemma StringOpens(k: Config, s: string, i: nat, st: Lexed, n: nat)
    requires Calm(st) && StringAt(k, s, i)
    ensures Lex(k, s, i, st, n) == Lex(k, s, i + 1, Opened(st, s[i]), n)
  {
    hide MoveAt, Lex, StandsIn;
    OpenStep(k, s, i, st);
    LexGo(k, s, i, st, n, i + 1, Opened(st, s[i]));
  }

  lemma StringPassed(k: Config, s: string, i: nat, st: Lexed, q: char, body: string, n: nat)
    requires Calm(st) && FitsAt(k, s, i, Quoted(q, body))
    ensures var g := Quoted(q, body);
      Lex(k, s, i, st, n) == Lex(k, s, i + |Shown(g)|, Past(k, st, g), n) && Calm(Past(k, st, g))
  {
    hide Lex, StandsIn, BodyFits, Opened, StringAt;
    WithinQuotes(s, i, q, body);
    WholeString(k, s, i, i + 1 + |body|, st, n);
  }

  lemma WholeString(k: Config, s: string, i: nat, e: nat, st: Lexed, n: nat)
    requires Calm(st) && i < e < |s| && StringAt(k, s, i) && BodyFits(k, s, i + 1, e, s[i]) && s[e] == s[i] && k.multiByte(s[e..]) == 0
    ensures Lex(k, s, i, st, n) ==
            Lex(k, s, e + 1, st.(acc := Opened(st, s[i]).acc + s[i + 1..e] + [s[e]], needSpace := false), n)
  {
    hide Lex, BodyFits, Opened, StandsIn;
    StringOpens(k, s, i, st, n);
    OpenedIs(st, s[i]);
    StringCloses(k, s, i + 1, e, Opened(st, s[i]), n);
  }

  lemma OpenedIs(st: Lexed, q: char)
    ensures var st' := Opened(st, q);
      st'.acc != "" && st' == st.(acc := st'.acc, needSpace := false, inString := q)
  {
  }

  lemma WithinQuotes(s: string, i: nat, q: char, body: string)
    requires StandsIn(s, i, [q] + body + [q])
    ensures i + |body| + 2 <= |s| && s[i] == q && s[i + 1..i + 1 + |body|] == body && s[i + 1 + |body|] == q
  {
    var e := i + 2 + |body|;
    assert s[i..e][0] == q && s[i..e][1 + |body|] == q;
    assert s[i + 1..i + 1 + |body|] == s[i..e][1..1 + |body|] == body;
  }

  // ----- comments that are not preserved -----

  lemma RemarkOpens(k: Config, s: string, i: nat, st: Lexed, n: nat)
    requires !k.preserveComments && Calm(st) && RemarkAt(k, s, i)
    ensures Lex(k, s, i, st, n) == Lex(k, s, i + 2, st.(mlComment := true, flushed := st.acc), n)
  {
    hide StandsIn, Lex;
    assert st.acc + "" == st.acc;
    LexGo(k, s, i, st, n, i + 2, st.(mlComment := true, flushed := st.acc));
  }

  predicate Commenting(st: Lexed) {
    st.mlComment && st.inString == NUL && st.flushed == st.acc
  }

  lemma RemarkStep(k: Config, s: string, i: nat, e: nat, st: Lexed)
    requires !k.preserveComments && Commenting(st) && i < e && RemarkFits(k, s, i, e)
    ensures var move := MoveAt(k, s, i, st);
      move.Go? && i < move.pos <= e && move.st == st && RemarkFits(k, s, move.pos, e)
  {
    hide StandsIn;
    assert st.acc + "" == st.acc;
  }

  /** Inside a comment nothing is kept and nothing is sent. */
  lemma {:induction false} RemarkSkipped(k: Config, s: string, i: nat, e: nat, st: Lexed, n: nat)
    requires !k.preserveComments && Commenting(st) && i <= e && RemarkFits(k, s, i, e)
    ensures Lex(k, s, i, st, n) == Lex(k, s, e, st, n)
    decreases e - i
  {
    hide MoveAt, Lex, Commenting;
    if i < e {
      RemarkStep(k, s, i, e, st);
      var pos := MoveAt(k, s, i, st).pos;
      LexGo(k, s, i, st, n, pos, st);
      RemarkSkipped(k, s, pos, e, st, n);
    }
  }

  lemma RemarkCloses(k: Config, s: string, e: nat, st: Lexed, n: nat)
    requires !k.preserveComments && e < |s| && k.multiByte(s[e..]) == 0 && CommentEndsAt(s, e)
    requires Commenting(st) && st.ssComment == NoComment
    ensures Lex(k, s, e, st, n) == Lex(k, s, e + 2, st.(mlComment := false, needSpace := true), n)
  {
    hide StandsIn, Lex;
    assert st.acc + "" == st.acc;
    LexGo(k, s, e, st, n, e + 2, st.(mlComment := false, needSpace := true));
  }

  lemma RemarkPassed(k: Config, s: string, i: nat, st: Lexed, body: string, n: nat)
    requires Calm(st) && FitsAt(k, s, i, Remark(body))
    ensures var g := Remark(body);
      Lex(k, s, i, st, n) == Lex(k, s, i + |Shown(g)|, Past(k, st, g), n) && Calm(Past(k, st, g))
  {
    hide Lex, StandsIn, CommentAt, RemarkFits, CommentEndsAt;
    var e := i + 2 + |body|;
    var inside := st.(mlComment := true, flushed := st.acc);
    WithinMarks(s, i, body);
    RemarkOpens(k, s, i, st, n);
    RemarkSkipped(k, s, i + 2, e, inside, n);
    RemarkCloses(k, s, e, inside, n);
  }

  /** The first end mark of a comment does not end it if it could be part of a start mark: the comment goes on. */
  lemma EndMarkMissed(k: Config, s: string, i: nat, e: nat, st: Lexed, n: nat)
    requires !k.preserveComments && Calm(st) && RemarkAt(k, s, i) && i + 2 < e && RemarkFits(k, s, i + 2, e - 1)
    requires CommentEndsAt(s, e) && s[e - 1] == '/' && k.multiByte(s[e - 1..]) == 0
    ensures Lex(k, s, i, st, n) == Lex(k, s, e + 1, st.(mlComment := true, flushed := st.acc), n)
  {
    hide Lex, StandsIn, RemarkFits;
    var inside := st.(mlComment := true, flushed := st.acc);
    RemarkOpens(k, s, i, st, n);
    RemarkSkipped(k, s, i + 2, e - 1, inside, n);
    assert st.acc + "" == st.acc;
    LexGo(k, s, e - 1, inside, n, e + 1, inside);
  }

  /** With the start mark of a server comment at `j` inside, the first end mark does not end the comment either, and is
      kept: part of the comment reaches the statement. */
  lemma EndMarkKept(k: Config, s: string, i: nat, j: nat, e: nat, st: Lexed, n: nat)
    requires !k.preserveComments && Calm(st) && RemarkAt(k, s, i) && i + 2 <= j < e < |s|
    requires RemarkFits(k, s, i + 2, j) && ServerMarkAt(s, j) && k.multiByte(s[j..]) == 0
    requires RemarkFits(k, s, j + 1, e) && CommentEndsAt(s, e) && k.multiByte(s[e..]) == 0
    ensures Lex(k, s, i, st, n) == Lex(k, s, e + 2, st.(mlComment := true, flushed := st.acc, acc := st.acc + "*/"), n)
  {
    hide Lex, StandsIn, RemarkFits, MoveAt, CommentAt, CommentEndsAt, ServerMarkAt;
    var inside := st.(mlComment := true, flushed := st.acc);
    RemarkOpens(k, s, i, st, n);
    RemarkSkipped(k, s, i + 2, j, inside, n);
    var ss := if CharAt(s, j + 2) == '!' then Conditional else Hint;
    ServerMarkStep(k, s, j, inside);
    LexGo(k, s, j, inside, n, j + 1, inside.(ssComment := ss));
    RemarkSkipped(k, s, j + 1, e, inside.(ssComment := ss), n);
    KeptMarkStep(k, s, e, inside.(ssComment := ss));
    LexGo(k, s, e, inside.(ssComment := ss), n, e + 2, inside.(acc := st.acc + "*/"));
  }

  lemma ServerMarkStep(k: Config, s: string, i: nat, st: Lexed)
    requires !k.preserveComments && Commenting(st) && st.ssComment == NoComment && i < |s|
    requires ServerMarkAt(s, i) && k.multiByte(s[i..]) == 0
    ensures MoveAt(k, s, i, st) == Go(i + 1, st.(ssComment := if CharAt(s, i + 2) == '!' then Conditional else Hint))
  {
    hide StandsIn;
  }

  lemma KeptMarkStep(k: Config, s: string, i: nat, st: Lexed)
    requires !k.preserveComments && Commenting(st) && st.ssComment != NoComment && i < |s|
    requires CommentEndsAt(s, i) && k.multiByte(s[i..]) == 0
    ensures MoveAt(k, s, i, st) == Go(i + 2, st.(ssComment := NoComment, acc := st.acc + "*/"))
  {
    hide StandsIn;
  }

  lemma WithinMarks(s: string, i: nat, body: string)
    requires StandsIn(s, i, "/*" + body + "*/")
    ensures i + |body| + 4 <= |s| && s[i + 2..i + 2 + |body|] == body && CommentEndsAt(s, i + 2 + |body|)
  {
    var t, m := s[i..i + |body| + 4], |body| + 2;
    assert t[m] == '*' && t[m + 1] == '/';
    assert s[i + 2..i + m] == t[2..m] == body;
  }

  // ----- comments that are preserved -----

  lemma PreservedStep(k: Config, s: string, i: nat, st: Lexed)
    requires k.preserveComments && st.mlComment && st.inString == NUL && st.ssComment == NoComment && !st.needSpace
    requires i < |s| && k.multiByte(s[i..]) == 0 && !CommentEndsAt(s, i) && !(s[i] == '/' && CharAt(s, i + 1) == '*')
    ensures MoveAt(k, s, i, st) == Go(i + 1, st.(acc := st.acc + [s[i]]))
  {
    hide StandsIn;
  }

  lemma {:induction false} PreservedBody(k: Config, s: string, i: nat, e: nat, st: Lexed, n: nat)
    requires k.preserveComments && st.mlComment && st.inString == NUL && st.ssComment == NoComment && !st.needSpace
    requires i <= e <= |s| && SingleBytes(k, s, i, e)
    requires forall j :: i <= j < e ==> !CommentEndsAt(s, j) && !(s[j] == '/' && CharAt(s, j + 1) == '*')
    ensures Lex(k, s, i, st, n) == Lex(k, s, e, st.(acc := st.acc + s[i..e]), n)
    decreases e - i
  {
    hide MoveAt, Lex, CommentEndsAt;
    if i < e {
      PreservedStep(k, s, i, st);
      LexGo(k, s, i, st, n, i + 1, st.(acc := st.acc + [s[i]]));
      PreservedBody(k, s, i + 1, e, st.(acc := st.acc + [s[i]]), n);
      assert s[i..i + 1] == [s[i]];
      JoinedTo(st.acc, s, i, i + 1, e);
    } else {
      assert st.acc + s[i..e] == st.acc;
    }
  }

  lemma PreservedMark(k: Config, s: string, i: nat, st: Lexed, opens: bool, n: nat)
    requires k.preserveComments && i < |s| && k.multiByte(s[i..]) == 0 && st.inString == NUL && st.ssComment == NoComment
    requires if opens then Calm(st) && RemarkAt(k, s, i) else st.mlComment && CommentEndsAt(s, i)
    ensures var acc := st.acc + if opens then "/*" else "*/";
      Lex(k, s, i, st, n) ==
      Lex(k, s, i + 2, st.(acc := acc, flushed := acc, mlComment := opens, needSpace := st.needSpace || !opens), n)
  {
    hide Lex, StandsIn;
    var acc := st.acc + if opens then "/*" else "*/";
    LexGo(k, s, i, st, n, i + 2, st.(acc := acc, flushed := acc, mlComment := opens, needSpace := st.needSpace || !opens));
  }

  /** A comment that is preserved is kept as it is, and a space is due behind it all the same. */
  lemma RemarkPreserved(k: Config, s: string, i: nat, st: Lexed, body: string, n: nat)
    requires k.preserveComments && Calm(st) && !st.needSpace && RemarkAt(k, s, i)
    requires StandsIn(s, i, Shown(Remark(body))) && SingleBytes(k, s, i, i + |body| + 3)
    requires forall j :: i + 2 <= j < i + 2 + |body| ==> !CommentEndsAt(s, j) && !(s[j] == '/' && CharAt(s, j + 1) == '*')
    ensures var acc := st.acc + Shown(Remark(body));
      Lex(k, s, i, st, n) == Lex(k, s, i + |body| + 4, st.(acc := acc, flushed := acc, needSpace := true), n)
  {
    hide Lex, StandsIn, RemarkAt, CommentEndsAt;
    var e, acc := i + 2 + |body|, st.acc + "/*";
    var inside := st.(acc := acc, flushed := acc, mlComment := true);
    WithinMarks(s, i, body);
    PreservedMark(k, s, i, st, true, n);
    PreservedBody(k, s, i + 2, e, inside, n);
    PreservedMark(k, s, e, inside.(acc := acc + body), false, n);
    assert acc + body + "*/" == st.acc + Shown(Remark(body));
  }

  /** A comment up to the end of the line that is preserved is kept behind a statement, and sent if it is on its own. */
  lemma CommentPreserved(k: Config, s: string, i: nat, st: Lexed, n: nat)
    requires k.preserveComments && Calm(st) && EndFits(k, s, i, LineComment) && NUL !in s[i..]
    ensures Lex(k, s, i, st, n) ==
      if st.acc != "" then Outcome([], Finished(k, st.(acc := st.acc + s[i..], flushed := st.acc + s[i..])))
      else Outcome([s[i..]], if k.replies(n).quit then Quits else Finished(Replied(k, n), st.(acc := "", flushed := "")))
  {
    assert MoveAt(k, s, i, st) == Comment by {
      hide StandsIn;
    }
    hide MoveAt, Replied;
    forall j | i <= j < |s| ensures s[j] != NUL {
      assert s[i..][j - i] == s[j];
    }
    NulEndIs(s, i, |s|);
    assert s[i..|s|] == s[i..] && "" + s[i..] == s[i..];
  }

  // ----- comments for the server -----

  predicate Serving(st: Lexed, hint: bool) {
    && st.inString == NUL && !st.mlComment && st.ssComment == (if hint then Hint else Conditional)
    && st.acc != "" && !st.needSpace
  }

  lemma ServerStep(k: Config, s: string, i: nat, e: nat, st: Lexed, hint: bool)
    requires Serving(st, hint) && i < e && ServerFits(k, s, i, e, hint)
    ensures var move := MoveAt(k, s, i, st);
      && move.Go? && i < move.pos <= e && move.st == st.(acc := st.acc + s[i..move.pos]) && ServerFits(k, s, move.pos, e, hint)
  {
    hide StandsIn;
    assert s[i..i + 1] == [s[i]];
  }

  /** A comment for the server is kept. */
  lemma {:induction false} ServerKept(k: Config, s: string, i: nat, e: nat, st: Lexed, hint: bool, n: nat)
    requires Serving(st, hint) && i <= e <= |s| && ServerFits(k, s, i, e, hint)
    ensures Lex(k, s, i, st, n) == Lex(k, s, e, st.(acc := st.acc + s[i..e]), n)
    decreases e - i
  {
    hide MoveAt, Lex, ServerFits;
    if i < e {
      ServerStep(k, s, i, e, st, hint);
      var pos := MoveAt(k, s, i, st).pos;
      LexGo(k, s, i, st, n, pos, st.(acc := st.acc + s[i..pos]));
      ServerKept(k, s, pos, e, st.(acc := st.acc + s[i..pos]), hint, n);
      JoinedTo(st.acc, s, i, pos, e);
    } else {
      assert st.acc + s[i..e] == st.acc;
    }
  }

  lemma ServerOpens(k: Config, s: string, i: nat, st: Lexed, n: nat)
    requires Calm(st) && i + 2 < |s| && ServerMarkAt(s, i) && !StandsIn(s, i, k.delimiter) && k.multiByte(s[i..]) == 0
    ensures var st' := st.(acc := st.acc + (if st.needSpace then " " else "") + "/", needSpace := false,
                           ssComment := if s[i + 2] == '+' then Hint else Conditional);
      Lex(k, s, i, st, n) == Lex(k, s, i + 1, st', n) && Serving(st', s[i + 2] == '+')
  {
    hide Lex, StandsIn;
    var st' := st.(acc := st.acc + (if st.needSpace then " " else "") + "/", needSpace := false,
                   ssComment := if s[i + 2] == '+' then Hint else Conditional);
    assert MoveAt(k, s, i, st) == Go(i + 1, st');
    LexGo(k, s, i, st, n, i + 1, st');
  }

  lemma ServerCloses(k: Config, s: string, e: nat, st: Lexed, hint: bool, n: nat)
    requires Serving(st, hint) && CommentEndsAt(s, e) && e < |s| && k.multiByte(s[e..]) == 0 && !StandsIn(s, e, k.delimiter)
    ensures Lex(k, s, e, st, n) == Lex(k, s, e + 2, st.(acc := st.acc + "*/", ssComment := NoComment), n)
  {
    hide Lex, StandsIn;
    LexGo(k, s, e, st, n, e + 2, st.(acc := st.acc + "*/", ssComment := NoComment));
  }

  lemma ServerPassed(k: Config, s: string, i: nat, st: Lexed, hint: bool, body: string, n: nat)
    requires Calm(st) && FitsAt(k, s, i, Server(hint, body))
    ensures var g := Server(hint, body);
      Lex(k, s, i, st, n) == Lex(k, s, i + |Shown(g)|, Past(k, st, g), n) && Calm(Past(k, st, g))
  {
    hide Lex, StandsIn, ServerFits;
    var e, t := i + 3 + |body|, Shown(Server(hint, body));
    WithinServerMarks(s, i, hint, body);
    ServerOpens(k, s, i, st, n);
    var space := if st.needSpace then " " else "";
    var open := st.(acc := st.acc + space + "/", needSpace := false, ssComment := if hint then Hint else Conditional);
    ServerKept(k, s, i + 1, e, open, hint, n);
    ServerCloses(k, s, e, open.(acc := open.acc + s[i + 1..e]), hint, n);
    assert st.acc + space + "/" + s[i + 1..e] + "*/" == st.acc + space + t;
  }

  lemma PartOf(s: string, i: nat, t: string, a: nat, b: nat)
    requires StandsIn(s, i, t) && a <= b <= |t|
    ensures s[i + a..i + b] == t[a..b]
  {
    forall l | a <= l < b ensures s[i + l] == t[l] {
      assert s[i..i + |t|][l] == s[i + l];
    }
  }

  lemma WithinServerMarks(s: string, i: nat, hint: bool, body: string)
    requires StandsIn(s, i, Shown(Server(hint, body)))
    ensures i + |body| + 5 <= |s| && ServerMarkAt(s, i) && s[i + 2] == (if hint then '+' else '!')
    ensures CommentEndsAt(s, i + 3 + |body|) && "/" + s[i + 1..i + 3 + |body|] + "*/" == Shown(Server(hint, body))
  {
    var t, m := Shown(Server(hint, body)), |body| + 3;
    assert |t| == |body| + 5 && s[i..i + |t|] == t;
    assert t[0] == '/' && t[1] == '*' && t[2] == (if hint then '+' else '!') && t[m] == '*' && t[m + 1] == '/';
    PartOf(s, i, t, 1, m);
    assert "/" + t[1..m] + "*/" == t;
  }

  // ----- whole lines -----

  lemma {:induction false} SegmentsPassed(k: Config, s: string, i: nat, st: Lexed, gs: seq<Segment>, n: nat)
    requires Calm(st) && FitAll(k, s, i, gs)
    ensures Lex(k, s, i, st, n) == Lex(k, s, i + Size(gs), PastAll(k, st, gs), n) && Calm(PastAll(k, st, gs))
    decreases |gs|
  {
    hide Lex, Past, FitsAt, Calm, Shown, Size, PastAll, FitAll;
    FirstSegment(k, s, i, st, gs);
    if gs != [] {
      var g, rest := gs[0], gs[1..];
      var j, st' := i + |Shown(g)|, Past(k, st, g);
      SegmentPassed(k, s, i, st, g, n);
      SegmentsPassed(k, s, j, st', rest, n);
      assert i + Size(gs) == j + Size(rest);
    }
  }

  lemma FirstSegment(k: Config, s: string, i: nat, st: Lexed, gs: seq<Segment>)
    ensures gs == [] ==> Size(gs) == 0 && PastAll(k, st, gs) == st
    ensures gs != [] ==>
      var g, rest := gs[0], gs[1..];
      && Size(gs) == |Shown(g)| + Size(rest) && PastAll(k, st, gs) == PastAll(k, Past(k, st, g), rest)
      && (FitAll(k, s, i, gs) ==> FitsAt(k, s, i, g) && FitAll(k, s, i + |Shown(g)|, rest))
  {
    hide FitsAt, Past, Shown;
  }

  lemma WidePassed(k: Config, s: string, i: nat, st: Lexed, t: string, n: nat)
    requires Calm(st) && FitsAt(k, s, i, Wide(t))
    ensures Lex(k, s, i, st, n) == Lex(k, s, i + |Shown(Wide(t))|, Past(k, st, Wide(t)), n) && Calm(Past(k, st, Wide(t)))
  {
    hide Lex;
    LexGo(k, s, i, st, n, i + |t|, st.(acc := st.acc + t));
  }

  lemma NullPassed(k: Config, s: string, i: nat, st: Lexed, n: nat)
    requires Calm(st) && FitsAt(k, s, i, Null)
    ensures Lex(k, s, i, st, n) == Lex(k, s, i + |Shown(Null)|, Past(k, st, Null), n) && Calm(Past(k, st, Null))
  {
    hide Lex;
    assert s[i] == s[i..i + 2][0] == '\\' && s[i + 1] == s[i..i + 2][1] == 'N';
    LexGo(k, s, i, st, n, i + 2, st.(acc := st.acc + "\\N"));
  }

  lemma TextPassed(k: Config, s: string, i: nat, st: Lexed, t: string, n: nat)
    requires Calm(st) && FitsAt(k, s, i, Text(t))
    ensures Lex(k, s, i, st, n) == Lex(k, s, i + |Shown(Text(t))|, Past(k, st, Text(t)), n) && Calm(Past(k, st, Text(t)))
  {
    hide Lex;
    TextFed(k, s, i, i + |t|, st, n);
  }

  lemma SegmentPassed(k: Config, s: string, i: nat, st: Lexed, g: Segment, n: nat)
    requires Calm(st) && FitsAt(k, s, i, g)
    ensures Lex(k, s, i, st, n) == Lex(k, s, i + |Shown(g)|, Past(k, st, g), n) && Calm(Past(k, st, g))
  {
    hide Lex, FitsAt, Past, Calm, Shown;
    match g
    case Text(t) => TextPassed(k, s, i, st, t, n);
    case Null => NullPassed(k, s, i, st, n);
    case Wide(t) => WidePassed(k, s, i, st, t, n);
    case Quoted(q, body) => StringPassed(k, s, i, st, q, body, n);
    case Remark(body) => RemarkPassed(k, s, i, st, body, n);
    case Server(hint, body) => ServerPassed(k, s, i, st, hint, body, n);
  }

  /** The delimiter stands at `i`, and can be seen there. */
  predicate DelimiterAt(k: Config, s: string, i: nat) {
    && StandsIn(s, i, k.delimiter) && k.delimiter != "" && k.delimiter[0] != '\\' && !IsSpace(k.delimiter[0])
    && k.multiByte(s[i..]) == 0
  }

  /** The reply to statement number `n` lets everything as it is. */
  ghost predicate Uneventful(k: Config, n: nat) {
    !k.replies(n).quit && Replied(k, n) == k
  }

  lemma DelimiterStep(k: Config, s: string, i: nat, st: Lexed)
    requires Calm(st) && DelimiterAt(k, s, i)
    ensures i < |s| && MoveAt(k, s, i, st) == Delimiter
  {
    assert s[i] == s[i..i + |k.delimiter|][0];
    hide StandsIn;
  }

  /** At a delimiter what was accepted is sent, and the next statement starts behind it. */
  lemma DelimiterSends(k: Config, s: string, i: nat, st: Lexed, n: nat)
    requires !k.preserveComments && Calm(st) && DelimiterAt(k, s, i)
    ensures Lex(k, s, i, st, n) ==
      if k.replies(n).quit then Outcome([st.acc], Quits)
      else Behind([st.acc], Lex(Replied(k, n), s, i + |k.delimiter|, st.(flushed := "", acc := ""), n + 1))
  {
    DelimiterStep(k, s, i, st);
    hide MoveAt, Lex, Replied;
    LexDelimiter(k, s, i, st, n);
    var from := i + |k.delimiter|;
    assert st.acc + s[from..from] == st.acc;
  }

  /** With comments preserved, white space and a comment behind the delimiter are sent too. */
  lemma DelimiterSendsMore(k: Config, s: string, i: nat, st: Lexed, n: nat)
    requires k.preserveComments && Calm(st) && DelimiterAt(k, s, i)
    ensures var from := i + |k.delimiter|;
      var at := SpacesEnd(s, from);
      var to := if TrailsAt(s, at) then NulEnd(s, at) else at;
      Lex(k, s, i, st, n) ==
        if k.replies(n).quit then Outcome([st.acc + s[from..to]], Quits)
        else Behind([st.acc + s[from..to]], Lex(Replied(k, n), s, to, st.(flushed := "", acc := ""), n + 1))
  {
    DelimiterStep(k, s, i, st);
    hide MoveAt, Lex, Replied, TrailsAt;
    LexDelimiter(k, s, i, st, n);
  }

  // ----- commands with a backslash -----

  /** A backslash and a letter that does not stand for a null value. */
  predicate LetterAt(s: string, i: nat) {
    i + 1 < |s| && s[i] == '\\' && s[i + 1] != NUL && s[i + 1] != 'N'
  }

  lemma LetterStep(k: Config, s: string, i: nat, st: Lexed)
    requires Calm(st) && LetterAt(s, i) && k.multiByte(s[i..]) == 0
    ensures MoveAt(k, s, i, st) == Command
  {
  }

  /** A command sees what was accepted, with the text from `i + 2` to `e` as its parameters. The line goes on behind a
      delimiter that ends them, with what the command leaves in the buffer. */
  lemma CommandSees(k: Config, s: string, i: nat, e: nat, st: Lexed, n: nat)
    requires Calm(st) && LetterAt(s, i) && k.multiByte(s[i..]) == 0 && i + 2 <= e <= |s|
    requires k.commands(s[i + 1]) == WithParameters
    requires forall j :: i + 2 <= j < e ==> s[j] != NUL && !StandsIn(s, j, Replied(k, n).delimiter)
    requires e < |s| ==> s[e] != NUL && StandsIn(s, e, Replied(k, n).delimiter)
    ensures var r, k' := k.replies(n), Replied(k, n);
      var to := if e < |s| then e + |k'.delimiter| else e;
      Lex(k, s, i, st, n) ==
        if r.quit then Outcome([st.acc], Quits)
        else Behind([st.acc], Lex(k', s, to, st.(flushed := r.buffer, acc := r.buffer), n + 1))
  {
    hide Lex, MoveAt, Replied, StandsIn;
    LetterStep(k, s, i, st);
    LexCommand(k, s, i, st, n);
    ParametersAre(Replied(k, n), s, i + 2, e);
  }

  lemma {:induction false} ParametersAre(k: Config, s: string, i: nat, e: nat)
    requires i <= e <= |s| && forall j :: i <= j < e ==> s[j] != NUL && !StandsIn(s, j, k.delimiter)
    requires e < |s| ==> s[e] != NUL && StandsIn(s, e, k.delimiter)
    ensures ParametersEnd(k, s, i, NoComment) == if e < |s| then e + |k.delimiter| else e
    decreases e - i
  {
    hide StandsIn;
    if i < e {
      ParametersAre(k, s, i + 1, e);
    }
  }

  /** A command without parameters. */
  lemma BareCommandSees(k: Config, s: string, i: nat, st: Lexed, n: nat)
    requires Calm(st) && LetterAt(s, i) && k.multiByte(s[i..]) == 0 && k.commands(s[i + 1]) == Bare
    ensures var r := k.replies(n);
      Lex(k, s, i, st, n) ==
        if r.quit then Outcome([st.acc], Quits)
        else Behind([st.acc], Lex(Replied(k, n), s, i + 2, st.(flushed := r.buffer, acc := r.buffer), n + 1))
  {
    hide Lex, MoveAt, Replied;
    LetterStep(k, s, i, st);
    LexCommand(k, s, i, st, n);
  }

  /** An unknown command is kept as it is, unless it makes the client quit. */
  lemma UnknownCommandKept(k: Config, s: string, i: nat, st: Lexed, n: nat)
    requires Calm(st) && LetterAt(s, i) && k.multiByte(s[i..]) == 0 && k.commands(s[i + 1]) == NoCommand
    ensures Lex(k, s, i, st, n) ==
      if k.strict then Outcome([], Quits) else Lex(k, s, i + 2, st.(acc := st.acc + s[i..i + 2]), n)
  {
    hide Lex, MoveAt;
    LetterStep(k, s, i, st);
    LexCommand(k, s, i, st, n);
    assert s[i..i + 2] == ['\\', s[i + 1]];
    var rest := Lex(k, s, i + 2, st.(acc := st.acc + s[i..i + 2]), n);
    assert Behind([], rest) == rest;
  }

  // ----- statements -----

  /** What the statements are, each of which ends with a delimiter. */
  function Statements(k: Config, st: Lexed, gss: seq<seq<Segment>>): seq<string>
    decreases |gss|
  {
    if gss == [] then []
    else
      var st' := PastAll(k, st, gss[0]);
      [st'.acc] + Statements(k, st'.(flushed := "", acc := ""), gss[1..])
  }

  function Left(k: Config, st: Lexed, gss: seq<seq<Segment>>): Lexed
    decreases |gss|
  {
    if gss == [] then st else Left(k, PastAll(k, st, gss[0]).(flushed := "", acc := ""), gss[1..])
  }

  function SizeOf(k: Config, gss: seq<seq<Segment>>): nat {
    if gss == [] then 0 else Size(gss[0]) + |k.delimiter| + SizeOf(k, gss[1..])
  }

  predicate StatementsFit(k: Config, s: string, i: nat, gss: seq<seq<Segment>>)
    decreases |gss|
  {
    gss == [] || (
      && FitAll(k, s, i, gss[0]) && DelimiterAt(k, s, i + Size(gss[0]))
      && StatementsFit(k, s, i + Size(gss[0]) + |k.delimiter|, gss[1..]))
  }

  /** Every statement is sent, in order, and nothing else. */
  lemma {:induction false} StatementsSent(k: Config, s: string, i: nat, st: Lexed, gss: seq<seq<Segment>>, n: nat)
    requires !k.preserveComments && Calm(st) && StatementsFit(k, s, i, gss)
    requires forall m :: n <= m < n + |gss| ==> Uneventful(k, m)
    ensures Lex(k, s, i, st, n) == Behind(Statements(k, st, gss), Lex(k, s, i + SizeOf(k, gss), Left(k, st, gss), n + |gss|))
    ensures Calm(Left(k, st, gss))
    decreases |gss|
  {
    hide Lex, FitAll, DelimiterAt, PastAll;
    if gss == [] {
      var rest := Lex(k, s, i, st, n);
      assert Behind([], rest) == rest;
    } else {
      var st', rest := PastAll(k, st, gss[0]), gss[1..];
      var next, i' := st'.(flushed := "", acc := ""), i + Size(gss[0]) + |k.delimiter|;
      SegmentsPassed(k, s, i, st, gss[0], n);
      DelimiterSends(k, s, i + Size(gss[0]), st', n);
      assert Uneventful(k, n);
      StatementsSent(k, s, i', next, rest, n + 1);
      assert i + SizeOf(k, gss) == i' + SizeOf(k, rest) && Left(k, st, gss) == Left(k, next, rest) && n + |gss| == n + 1 + |rest|;
      BehindBoth([st'.acc], Statements(k, next, rest), Lex(k, s, i' + SizeOf(k, rest), Left(k, next, rest), n + |gss|));
    }
  }

  /** How a line ends: with a comment up to its end, or inside a string or a comment. */
  datatype Ending = Nothing | LineComment | OpenString | OpenRemark

  predicate EndFits(k: Config, s: string, i: nat, e: Ending) {
    match e
    case Nothing => i == |s|
    case LineComment =>
      && i < |s| && !StandsIn(s, i, k.delimiter) && k.multiByte(s[i..]) == 0
      && (s[i] == '#' || (s[i] == '-' && CharAt(s, i + 1) == '-' && (i + 2 == |s| || IsSpace(CharAt(s, i + 2)))))
    case OpenString => StringAt(k, s, i) && BodyFits(k, s, i + 1, |s|, s[i])
    case OpenRemark => RemarkAt(k, s, i) && RemarkFits(k, s, i + 2, |s|)
  }

  function Closing(st: Lexed, s: string, i: nat, e: Ending): Lexed
    requires e == Nothing || i < |s|
  {
    match e
    case Nothing => st
    case LineComment => st.(flushed := st.acc)
    case OpenString => Opened(st, s[i]).(acc := Opened(st, s[i]).acc + s[i + 1..])
    case OpenRemark => st.(flushed := st.acc, mlComment := true)
  }

  /** Behind the last statement nothing is sent: not what stands in a string, and not what stands in a comment. */
  lemma EndKept(k: Config, s: string, i: nat, st: Lexed, e: Ending, n: nat)
    requires !k.preserveComments && Calm(st) && EndFits(k, s, i, e)
    ensures Lex(k, s, i, st, n) == Outcome([], Finished(k, Closing(st, s, i, e)))
    ensures Closing(st, s, i, e).mlComment ==> Closing(st, s, i, e).flushed == Closing(st, s, i, e).acc
  {
    match e
    case Nothing => LexEnd(k, s, i, st, n);
    case LineComment => CommentStep(k, s, i, st, n);
    case OpenString =>
      hide Lex, StandsIn, BodyFits;
      var open := Opened(st, s[i]);
      StringOpens(k, s, i, st, n);
      BodyKept(k, s, i + 1, |s|, open, n);
      assert s[i + 1..|s|] == s[i + 1..];
      LexEnd(k, s, |s|, open.(acc := open.acc + s[i + 1..]), n);
    case OpenRemark =>
      hide Lex, StandsIn, RemarkFits;
      var inside := st.(flushed := st.acc, mlComment := true);
      RemarkOpens(k, s, i, st, n);
      RemarkSkipped(k, s, i + 2, |s|, inside, n);
      LexEnd(k, s, |s|, inside, n);
  }

  lemma CommentStep(k: Config, s: string, i: nat, st: Lexed, n: nat)
    requires !k.preserveComments && Calm(st) && EndFits(k, s, i, LineComment)
    ensures Lex(k, s, i, st, n) == Outcome([], Finished(k, st.(flushed := st.acc)))
  {
    hide StandsIn;
    assert MoveAt(k, s, i, st) == Comment;
  }

  /** A string or a comment that is open at the start of the line is closed just before `j`. */
  predicate EntryFits(k: Config, s: string, st: Lexed, j: nat) {
    if st.inString != NUL then
      && IsQuote(st.inString) && !st.mlComment && st.ssComment == NoComment && st.acc != "" && !st.needSpace
      && 1 <= j <= |s| && BodyFits(k, s, 0, j - 1, st.inString) && s[j - 1] == st.inString && k.multiByte(s[j - 1..]) == 0
    else if st.mlComment then
      && Commenting(st) && st.ssComment == NoComment && 2 <= j <= |s|
      && RemarkFits(k, s, 0, j - 2) && CommentEndsAt(s, j - 2) && k.multiByte(s[j - 2..]) == 0
    else Calm(st) && j == 0
  }

  function Entered(st: Lexed, s: string, j: nat): Lexed
    requires j <= |s|
  {
    if st.inString != NUL then st.(acc := st.acc + s[..j], inString := NUL)
    else if st.mlComment then st.(mlComment := false, needSpace := true)
    else st
  }

  lemma EntryPassed(k: Config, s: string, st: Lexed, j: nat, n: nat)
    requires !k.preserveComments && EntryFits(k, s, st, j)
    ensures Lex(k, s, 0, st, n) == Lex(k, s, j, Entered(st, s, j), n) && Calm(Entered(st, s, j))
  {
    hide Lex, BodyFits, RemarkFits, CommentEndsAt, Commenting;
    if st.inString != NUL {
      StringLeft(k, s, st, j - 1, n);
    } else if st.mlComment {
      CommentLeft(k, s, st, j - 2, n);
    }
  }

  lemma StringLeft(k: Config, s: string, st: Lexed, e: nat, n: nat)
    requires IsQuote(st.inString) && !st.mlComment && st.ssComment == NoComment && st.acc != "" && !st.needSpace
    requires e < |s| && BodyFits(k, s, 0, e, st.inString) && s[e] == st.inString && k.multiByte(s[e..]) == 0
    ensures Lex(k, s, 0, st, n) == Lex(k, s, e + 1, st.(acc := st.acc + s[..e + 1], inString := NUL), n)
  {
    hide Lex, BodyFits;
    StringCloses(k, s, 0, e, st, n);
    JoinedTo(st.acc, s, 0, e, e + 1);
    assert s[0..e + 1] == s[..e + 1] && s[e..e + 1] == [s[e]];
  }

  lemma CommentLeft(k: Config, s: string, st: Lexed, e: nat, n: nat)
    requires !k.preserveComments && Commenting(st) && st.ssComment == NoComment
    requires RemarkFits(k, s, 0, e) && CommentEndsAt(s, e) && e < |s| && k.multiByte(s[e..]) == 0
    ensures Lex(k, s, 0, st, n) == Lex(k, s, e + 2, st.(mlComment := false, needSpace := true), n)
    ensures Calm(st.(mlComment := false, needSpace := true))
  {
    hide Lex, RemarkFits, CommentEndsAt;
    RemarkSkipped(k, s, 0, e, st, n);
    RemarkCloses(k, s, e, st, n);
  }

  /** A line: what was open is closed before `j`, statements `gss` follow, and then something without a delimiter. */
  predicate LineFits(k: Config, s: string, st: Lexed, j: nat, gss: seq<seq<Segment>>, last: seq<Segment>, e: Ending) {
    var i := j + SizeOf(k, gss);
    && j <= |s| && EntryFits(k, s, st, j) && StatementsFit(k, s, j, gss) && FitAll(k, s, i, last)
    && EndFits(k, s, i + Size(last), e)
  }

  /** What is accepted, but not sent, at the end of the line. */
  function AtEnd(k: Config, s: string, st: Lexed, j: nat, gss: seq<seq<Segment>>, last: seq<Segment>, e: Ending): Lexed
    requires LineFits(k, s, st, j, gss, last, e)
  {
    Closing(PastAll(k, Left(k, Entered(st, s, j), gss), last), s, j + SizeOf(k, gss) + Size(last), e)
  }

  /** The statements of a line are sent, each once and in order, and nothing else. */
  lemma LineSent(k: Config, s: string, st: Lexed, j: nat, gss: seq<seq<Segment>>, last: seq<Segment>, e: Ending, n: nat)
    requires !k.preserveComments && LineFits(k, s, st, j, gss, last, e)
    requires forall m :: n <= m < n + |gss| ==> Uneventful(k, m)
    ensures Lex(k, s, 0, st, n) ==
            Outcome(Statements(k, Entered(st, s, j), gss), Finished(k, AtEnd(k, s, st, j, gss, last, e)))
    ensures var st' := AtEnd(k, s, st, j, gss, last, e);
      st'.mlComment ==> st'.flushed == st'.acc
  {
    hide Lex, FitAll, StatementsFit, EndFits, EntryFits, Statements, Left, Closing, Entered, Calm, SizeOf, Size, Uneventful;
    var i, st1 := j + SizeOf(k, gss), Entered(st, s, j);
    EntryPassed(k, s, st, j, n);
    StatementsSent(k, s, j, st1, gss, n);
    RestKept(k, s, i, Left(k, st1, gss), last, e, n + |gss|);
    assert Statements(k, st1, gss) + [] == Statements(k, st1, gss);
  }

  lemma RestKept(k: Config, s: string, i: nat, st: Lexed, last: seq<Segment>, e: Ending, n: nat)
    requires !k.preserveComments && Calm(st) && FitAll(k, s, i, last) && EndFits(k, s, i + Size(last), e)
    ensures Lex(k, s, i, st, n) == Outcome([], Finished(k, Closing(PastAll(k, st, last), s, i + Size(last), e)))
    ensures var st' := Closing(PastAll(k, st, last), s, i + Size(last), e);
      st'.mlComment ==> st'.flushed == st'.acc
  {
    hide Lex, FitAll, EndFits, Closing, Calm, Size, PastAll;
    SegmentsPassed(k, s, i, st, last, n);
    EndKept(k, s, i + Size(last), PastAll(k, st, last), e, n);
  }

  /** What is left in the buffer: what was accepted, and a newline. In a comment, or when the line sets the delimiter, or
      when it was cut off, there is no newline. */
  predicate LeftIn(buffer: string, st: Lexed, truncated: bool) {
    && |st.flushed| <= |st.acc|
    && buffer == st.acc +
         if st.acc == "" || st.mlComment || truncated || (st.inString == NUL && SetsDelimiter(st.acc[|st.flushed|..])) then ""
         else "\n"
  }

  /** The word that sets the delimiter, in any case. */
  lemma SettingDelimiter(t: string)
    ensures SetsDelimiter(t) <==>
      |t| >= 9 && forall i :: 0 <= i < 9 ==> t[i] == "delimiter"[i] || t[i] == "DELIMITER"[i]
  {
    if |t| >= 9 {
      forall i | 0 <= i < 9 ensures Lower(t[i]) == "delimiter"[i] <==> t[i] == "delimiter"[i] || t[i] == "DELIMITER"[i] {
        OneLetter(t[i], i);
      }
    }
  }

  lemma OneLetter(c: char, i: nat)
    requires i < 9
    ensures Lower(c) == "delimiter"[i] <==> c == "delimiter"[i] || c == "DELIMITER"[i]
  {
  }

  lemma BufferIs(k: Config, st: Lexed, truncated: bool)
    requires !k.preserveComments && |st.flushed| <= |st.acc| && (st.mlComment ==> st.flushed == st.acc)
    ensures LeftIn(BufferAfter(k, st, truncated), st, truncated)
  {
    assert st.acc + "" == st.acc;
  }

  /** Adds a line whose strings and comments are closed, or left open at its end: its statements are sent, and the rest
      of it is kept. Delimiters in strings and comments send nothing, and nothing of a comment is sent or kept. */
  method AddText(scanner: Scanner, line: array<char>, n: nat, truncated: bool,
                 ghost j: nat, ghost gss: seq<seq<Segment>>, ghost last: seq<Segment>, ghost e: Ending) returns (quit: bool)
    requires scanner.Valid() && IsLine(line, n) && !scanner.preserveComments
    requires n == 0 || line[0] != NUL || scanner.buffer != ""
    requires LineFits(scanner.Settings(), line[..n], scanner.State(line, 0, false), j, gss, last, e)
    requires forall m :: |scanner.sent| <= m < |scanner.sent| + |gss| ==> Uneventful(scanner.Settings(), m)
    modifies line, scanner
    ensures scanner.Valid() && !quit && scanner.Settings() == old(scanner.Settings())
    ensures var k, s, st := old(scanner.Settings()), old(line[..n]), old(scanner.State(line, 0, false));
      var st' := AtEnd(k, s, st, j, gss, last, e);
      && scanner.sent == old(scanner.sent) + Statements(k, Entered(st, s, j), gss)
      && scanner.inString == st'.inString && scanner.mlComment == st'.mlComment && scanner.ssComment == st'.ssComment
      && LeftIn(scanner.buffer, st', truncated)
  {
    hide Lex, LineFits, Statements, AtEnd, BufferAfter, LeftIn;
    ghost var k, s, st := scanner.Settings(), line[..n], scanner.State(line, 0, false);
    LineSent(k, s, st, j, gss, last, e, |scanner.sent|);
    quit := scanner.AddLine(line, n, truncated);
    BufferIs(k, AtEnd(k, s, st, j, gss, last, e), truncated);
  }

  /** A statement and a delimiter, whatever follows: the first to be sent is the buffer and the statement, without the
      white space at its front if nothing was in the buffer. With comments preserved, something may follow it. */
  method AddStatement(scanner: Scanner, line: array<char>, n: nat, truncated: bool, ghost size: nat) returns (quit: bool)
    requires scanner.Valid() && IsLine(line, n) && (n == 0 || line[0] != NUL || scanner.buffer != "")
    requires scanner.inString == NUL && !scanner.mlComment && scanner.ssComment == NoComment
    requires size < n && SingleBytes(scanner.Settings(), line[..n], 0, size) && DelimiterAt(scanner.Settings(), line[..n], size)
    requires forall l :: 0 <= l < size ==> PlainAt(scanner.Settings(), line[..n], l)
    modifies line, scanner
    ensures |scanner.sent| > |old(scanner.sent)| && old(scanner.sent) <= scanner.sent
    ensures var t, first := old(line[..size]), scanner.sent[|old(scanner.sent)|];
      var text := old(scanner.buffer) + if old(scanner.buffer) == "" && !scanner.preserveComments then t[SpacesEnd(t, 0)..] else t;
      text <= first && (!scanner.preserveComments ==> first == text)
  {
    hide Lex, PlainAt, BufferAfter, Feed, DelimiterAt;
    ghost var k, s, st, m := scanner.Settings(), line[..n], scanner.State(line, 0, false), |scanner.sent|;
    TextFed(k, s, 0, size, st, m);
    assert s[0..size] == line[..size];
    FedIs(k, st, line[..size]);
    FirstIs(k, s, size, Feed(k, st, s[0..size]), m);
    quit := scanner.AddLine(line, n, truncated);
  }

  lemma FirstIs(k: Config, s: string, i: nat, st: Lexed, n: nat)
    requires Calm(st) && DelimiterAt(k, s, i)
    ensures var sent := Lex(k, s, i, st, n).sent;
      |sent| > 0 && st.acc <= sent[0] && (!k.preserveComments ==> sent[0] == st.acc)
  {
    hide Lex, DelimiterAt, TrailsAt;
    if k.preserveComments {
      DelimiterSendsMore(k, s, i, st, n);
    } else {
      DelimiterSends(k, s, i, st, n);
    }
  }
}
