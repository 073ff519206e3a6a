/** The ways to write the argument of a client command, and what comes of them. */
module ArgumentForms {
  import opened ClientText
  import opened CommandArgument

  /** What ends an argument: its quote, or a space when it has none. */
  function EndMark(q: char): char {
    if q != NUL then q else ' '
  }

  /** `text` is `name` written with quote `q`, or without one: each character as it is, where that can be, after a
      backslash, where that is an escape, or as a doubled quote. */
  ghost predicate Encodes(text: string, name: string, q: char, short: bool)
    decreases |name|
  {
    if name == "" then text == ""
    else
      || (text != "" && text[0] == name[0] != EndMark(q) && (name[0] == '\\' ==> !short && q == '`')
          && Encodes(text[1..], name[1..], q, short))
      || (|text| >= 2 && text[0] == '\\' && text[1] == name[0] && (short || q != '`') && Encodes(text[2..], name[1..], q, short))
      || (|text| >= 2 && text[0] == text[1] == name[0] == q && q != NUL && !short && Encodes(text[2..], name[1..], q, short))
  }

  lemma FirstBehind(name: string, r: Scanned)
    requires name != "" && r.text == name[1..]
    ensures Behind([name[0]], r) == r.(text := name)
  {
    assert name == [name[0]] + name[1..];
  }

  /** However it is written, scanning up to its end gives the name back, and leaves what comes after. */
  lemma {:induction false} ScanEncoded(text: string, name: string, q: char, short: bool, tail: string)
    requires Encodes(text, name, q, short) && q != '\\'
    requires q != NUL && !short ==> tail == "" || tail[0] != q
    ensures Scan(text + ([EndMark(q)] + tail), q, short) == Scanned(name, true, tail)
    decreases |name|
  {
    var s := text + ([EndMark(q)] + tail);
    if name == "" {
      assert s == [EndMark(q)] + tail && s[1..] == tail;
    } else if text[0] == name[0] != EndMark(q) && (name[0] == '\\' ==> !short && q == '`') && Encodes(text[1..], name[1..], q, short) {
      ScanEncoded(text[1..], name[1..], q, short, tail);
      assert s[0] == text[0] && s[1..] == text[1..] + ([EndMark(q)] + tail);
      FirstBehind(name, Scan(s[1..], q, short));
    } else {
      ScanEncoded(text[2..], name[1..], q, short, tail);
      assert s[0] == text[0] && s[1] == text[1] && s[2..] == text[2..] + ([EndMark(q)] + tail);
      FirstBehind(name, Scan(s[2..], q, short));
    }
  }

  /** Without its end, the whole of it is scanned, and is not closed. */
  lemma {:induction false} ScanUnclosed(text: string, name: string, q: char, short: bool)
    requires Encodes(text, name, q, short) && q != '\\'
    ensures Scan(text, q, short) == Scanned(name, false, "")
    decreases |name|
  {
    if name != "" {
      if text[0] == name[0] != EndMark(q) && (name[0] == '\\' ==> !short && q == '`') && Encodes(text[1..], name[1..], q, short) {
        ScanUnclosed(text[1..], name[1..], q, short);
        FirstBehind(name, Scan(text[1..], q, short));
      } else {
        ScanUnclosed(text[2..], name[1..], q, short);
        FirstBehind(name, Scan(text[2..], q, short));
      }
    }
  }

  // ----- lines -----

  predicate AllSpaces(s: string) {
    forall i :: 0 <= i < |s| ==> IsSpace(s[i])
  }

  /** A word that is neither a short command nor empty, or a backslash and a letter; a long command needs white space
      after it. */
  predicate IsCommand(lead: string, command: string, gap: string, short: bool) {
    && AllSpaces(lead) && AllSpaces(gap) && command != ""
    && if short then |command| == 2 && command[0] == '\\'
       else command[0] != '\\' && gap != "" && forall i :: 0 <= i < |command| ==> !IsSpace(command[i])
  }

  /** The argument of a line is what comes after the command and the white space. */
  lemma ArgumentOfLine(lead: string, command: string, gap: string, short: bool, a: string)
    requires IsCommand(lead, command, gap, short) && a != "" && !IsSpace(a[0])
    ensures var line := lead + (command + (gap + a));
      && WellFormed(line) && IsShort(line) == short && ArgumentOf(line) == Argument(a, short)
      && ScanArgument(SkipSpaces(AfterCommand(line)), short) == ScanArgument(a, short)
  {
    hide Scan, Argument, ScanArgument, SkipSpaces, SkipWord;
    if short {
      assert command == ['\\', command[1]];
      ShortSkipped(lead, command[1], gap, a);
    } else {
      CommandSkipped(lead, command, gap, a);
    }
  }

  /** A quoted argument, with any of the quotes and however it is written: it comes through, and what is after its
      closing quote is left. */
  lemma QuotedComesThrough(lead: string, command: string, gap: string, short: bool, q: char, text: string, name: string, tail: string)
    requires IsCommand(lead, command, gap, short) && IsQuote(q) && Encodes(text, name, q, short)
    requires !short ==> tail == "" || tail[0] != q
    ensures var line := lead + (command + (gap + ([q] + (text + ([q] + tail)))));
      && WellFormed(line) && ArgumentOf(line) == (if name != "" then Some(name) else None)
      && ScanArgument(SkipSpaces(AfterCommand(line)), short) == Scanned(name, true, tail)
  {
    var a := [q] + (text + ([q] + tail));
    ScanEncoded(text, name, q, short, tail);
    assert a[1..] == text + ([q] + tail);
    hide Scan, Encodes;
    ArgumentOfLine(lead, command, gap, short, a);
  }

  /** An argument whose quote is not closed is refused. */
  lemma UnclosedIsRefused(lead: string, command: string, gap: string, short: bool, q: char, text: string, name: string)
    requires IsCommand(lead, command, gap, short) && IsQuote(q) && Encodes(text, name, q, short)
    ensures var line := lead + (command + (gap + ([q] + text)));
      WellFormed(line) && ArgumentOf(line) == None
  {
    var a := [q] + text;
    ScanUnclosed(text, name, q, short);
    assert a[1..] == text;
    hide Scan, Encodes;
    ArgumentOfLine(lead, command, gap, short, a);
  }

  /** An argument without quotes goes up to the first space that is not escaped, or to the end of the line. */
  lemma WordComesThrough(lead: string, command: string, gap: string, short: bool, text: string, name: string, tail: string)
    requires IsCommand(lead, command, gap, short) && Encodes(text, name, NUL, short)
    requires text != "" && !IsQuote(text[0]) && !IsSpace(text[0])
    ensures var line := lead + (command + (gap + text));
      WellFormed(line) && ArgumentOf(line) == Some(name)
    ensures var line := lead + (command + (gap + (text + ([' '] + tail))));
      && WellFormed(line) && ArgumentOf(line) == Some(name)
      && ScanArgument(SkipSpaces(AfterCommand(line)), short) == Scanned(name, true, tail)
  {
    assert name != "";
    ScanEncoded(text, name, NUL, short, tail);
    ScanUnclosed(text, name, NUL, short);
    hide Scan, Encodes;
    ArgumentOfLine(lead, command, gap, short, text);
    var a := text + ([' '] + tail);
    assert a[0] == text[0];
    ArgumentOfLine(lead, command, gap, short, a);
  }

  /** A word with nothing special in it. */
  predicate PlainWord(w: string) {
    && w != "" && !IsQuote(w[0]) && !IsSpace(w[0])
    && forall i :: 0 <= i < |w| ==> w[i] != ' ' && w[i] != '\\' && w[i] != NUL
  }

  lemma {:induction false} PlainIsItself(w: string, short: bool)
    requires forall i :: 0 <= i < |w| ==> w[i] != ' ' && w[i] != '\\'
    ensures Encodes(w, w, NUL, short)
  {
    if w != "" {
      PlainIsItself(w[1..], short);
    }
  }

  // ----- two arguments -----

  /** The first two arguments of a line that separates plain words by white space, one after the other. */
  method GetTwo(line: array<char>, ghost lead: string, ghost command: string, ghost gap: string, ghost short: bool,
                ghost first: string, ghost gap2: string, ghost second: string)
    returns (ok: bool, a: string, ok2: bool, b: string)
    requires exists i :: 0 <= i < line.Length && line[i] == NUL
    requires IsCommand(lead, command, gap, short) && PlainWord(first) && PlainWord(second) && AllSpaces(gap2)
    requires Text(line, 0) == lead + (command + (gap + (first + ([' '] + (gap2 + second)))))
    modifies line
    ensures ok && a == first && ok2 && b == second
  {
    hide Scan, SkipSpaces, AfterCommand, IsShort, Argument, ScanArgument, WellFormed, Encodes, ArgumentOf, Text;
    PlainIsItself(first, short);
    WordComesThrough(lead, command, gap, short, first, first, gap2 + second);
    ArgumentIsShort(lead, command, gap, short, first + ([' '] + (gap2 + second)));
    var start;
    ghost var end, m;
    ok, start, end, m := GetArg(line, GET);
    assert Holds(line, start, end);
    var stop := FindEnd(line, start);
    OneEnd(line, start, stop, end);
    a := line[start..stop];
    assert line[end] == NUL && line[m] == NUL && Holds(line, 0, end) && Holds(line, end + 1, m);
    TextIs(line, 0, end);
    TextIs(line, end + 1, m);
    WordAlone(gap2, second);
    ghost var end2;
    ok2, start, end2 := GetNext(line);
    stop := FindEnd(line, start);
    OneEnd(line, start, stop, end2);
    b := line[start..stop];
  }

  lemma ArgumentIsShort(lead: string, command: string, gap: string, short: bool, a: string)
    requires IsCommand(lead, command, gap, short) && a != "" && !IsSpace(a[0])
    ensures IsShort(lead + (command + (gap + a))) == short
  {
    ArgumentOfLine(lead, command, gap, short, a);
  }

  lemma TextIs(line: array<char>, p: nat, n: nat)
    requires Holds(line, p, n)
    ensures (exists i :: p <= i < line.Length && line[i] == NUL) && Text(line, p) == line[p..n]
  {
    OneEnd(line, p, n, p + |Text(line, p)|);
  }

  lemma WordAlone(gap: string, w: string)
    requires AllSpaces(gap) && PlainWord(w)
    ensures gap + w != "" && Argument(SkipSpaces(gap + w), false) == Some(w)
  {
    SkipOver(gap, w);
    PlainIsItself(w, false);
    ScanUnclosed(w, w, NUL, false);
  }
}
