/** How the command line client takes the argument of a command out of its line, and how a name has to be quoted to
    get through unchanged.
  */
module CommandArgument {
  import opened ClientText

  predicate IsQuote(c: char) {
    c == '\'' || c == '\"' || c == '`'
  }

  function SkipSpaces(s: string): string {
    if s != "" && IsSpace(s[0]) then SkipSpaces(s[1..]) else s
  }

  function SkipWord(s: string): string {
    if s != "" && !IsSpace(s[0]) then SkipWord(s[1..]) else s
  }

  /** A short command is a backslash and a character. */
  predicate IsShort(line: string) {
    SkipSpaces(line) != "" && SkipSpaces(line)[0] == '\\'
  }

  predicate WellFormed(line: string) {
    IsShort(line) ==> |SkipSpaces(line)| >= 2
  }

  function AfterCommand(line: string): string
    requires WellFormed(line)
  {
    if IsShort(line) then SkipSpaces(line)[2..] else SkipWord(SkipSpaces(line))
  }

  /** A character that stands for itself after what is in front of it: anything after a backslash, and a doubled
      quote in a long command; `q` is the open quote or NUL. */
  predicate Escapes(s: string, q: char, short: bool) {
    |s| >= 2 &&
    if short then s[0] == '\\'
    else (s[0] == '\\' && q != '`') || (q != NUL && s[0] == q && s[1] == q)
  }

  predicate Stops(c: char, q: char) {
    c == if q != NUL then q else ' '
  }

  datatype Scanned = Scanned(text: string, closed: bool, rest: string)

  /** The argument without its escapes, whether its end was seen, and what comes after its end. */
  function Scan(s: string, q: char, short: bool): Scanned {
    if s == "" then Scanned("", false, "")
    else if Escapes(s, q, short) then Behind([s[1]], Scan(s[2..], q, short))
    else if Stops(s[0], q) then Scanned("", true, s[1..])
    else Behind([s[0]], Scan(s[1..], q, short))
  }

  function Behind(t: string, r: Scanned): Scanned {
    r.(text := t + r.text)
  }

  lemma BehindBoth(a: string, b: string, r: Scanned)
    ensures Behind(a, Behind(b, r)) == Behind(a + b, r)
  {
    assert a + (b + r.text) == (a + b) + r.text;
  }

  function Finish(r: Scanned, q: char): Option<string> {
    if r.text != "" && (q == NUL || r.closed) then Some(r.text) else None
  }

  /** The quote at the front of an argument; NUL if there is none. */
  function QuoteOf(s: string): char {
    if s != "" && IsQuote(s[0]) then s[0] else NUL
  }

  /** What an argument at the front of `s`, which may be quoted, holds. */
  function ScanArgument(s: string, short: bool): Scanned {
    Scan(if QuoteOf(s) != NUL then s[1..] else s, QuoteOf(s), short)
  }

  function Argument(s: string, short: bool): Option<string> {
    Finish(ScanArgument(s, short), QuoteOf(s))
  }

  /** The argument of a whole line. */
  function ArgumentOf(line: string): Option<string>
    requires WellFormed(line)
  {
    if AfterCommand(line) == "" then None else Argument(SkipSpaces(AfterCommand(line)), IsShort(line))
  }

  // ----- the code -----

  /** A string in a buffer, from `p` up to its end `n`. */
  ghost predicate Holds(line: array<char>, p: nat, n: nat)
    reads line
  {
    p <= n < line.Length && line[n] == NUL && forall i :: p <= i < n ==> line[i] != NUL
  }

  /** The string that starts at `p`. */
  ghost function Text(line: array<char>, p: nat): (s: string)
    requires exists i :: p <= i < line.Length && line[i] == NUL
    reads line
    decreases line.Length - p
    ensures Holds(line, p, p + |s|) && s == line[p..p + |s|]
  {
    if line[p] == NUL then "" else [line[p]] + Text(line, p + 1)
  }

  lemma OneEnd(line: array<char>, p: nat, n: nat, m: nat)
    requires Holds(line, p, n) && Holds(line, p, m)
    ensures n == m
  {
  }

  method FindEnd(line: array<char>, p: nat) returns (n: nat)
    requires exists i :: p <= i < line.Length && line[i] == NUL
    ensures Holds(line, p, n)
  {
    n := p;
    while line[n] != NUL
      invariant p <= n < line.Length && (forall i :: p <= i < n ==> line[i] != NUL)
      invariant exists i :: n <= i < line.Length && line[i] == NUL
      decreases line.Length - n
    {
      n := n + 1;
    }
  }

  method SkipSpacesAt(line: array<char>, p: nat, ghost n: nat) returns (q: nat)
    requires Holds(line, p, n)
    ensures p <= q <= n && line[q..n] == SkipSpaces(line[p..n])
  {
    q := p;
    while IsSpace(line[q])
      invariant p <= q <= n && SkipSpaces(line[q..n]) == SkipSpaces(line[p..n])
      decreases n - q
    {
      assert line[q..n][1..] == line[q + 1..n];
      q := q + 1;
    }
  }

  method SkipWordAt(line: array<char>, p: nat, ghost n: nat) returns (q: nat)
    requires Holds(line, p, n)
    ensures p <= q <= n && line[q..n] == SkipWord(line[p..n])
  {
    q := p;
    while line[q] != NUL && !IsSpace(line[q])
      invariant p <= q <= n && SkipWord(line[q..n]) == SkipWord(line[p..n])
      decreases n - q
    {
      assert line[q..n][1..] == line[q + 1..n];
      q := q + 1;
    }
  }

  /** Moves a string one to the left, over its predecessor. */
  method ShiftLeft(line: array<char>, p: nat, ghost n: nat)
    requires p + 1 <= n && Holds(line, p, n)
    modifies line
    ensures Holds(line, p, n - 1)
    ensures line[p..n - 1] == old(line[p + 1..n])
    ensures line[..p] == old(line[..p]) && line[n..] == old(line[n..])
  {
    var i := p;
    while line[i] != NUL
      invariant p <= i <= n
      invariant forall j :: p <= j < i ==> line[j] == old(line[j + 1])
      invariant forall j :: 0 <= j < line.Length && !(p <= j < i) ==> line[j] == old(line[j])
      decreases n - i
    {
      line[i] := line[i + 1];
      i := i + 1;
    }
  }

  /** One character of the argument is `c`, after `skip` others; `w` is all there is to scan. */
  lemma OneMore(w: Scanned, text: string, s: string, q: char, short: bool)
    requires w == Behind(text, Scan(s, q, short)) && s != ""
    ensures Escapes(s, q, short) ==> w == Behind(text + [s[1]], Scan(s[2..], q, short))
    ensures !Escapes(s, q, short) && !Stops(s[0], q) ==> w == Behind(text + [s[0]], Scan(s[1..], q, short))
    ensures !Escapes(s, q, short) && Stops(s[0], q) ==> w == Scanned(text, true, s[1..])
  {
    if Escapes(s, q, short) {
      BehindBoth(text, [s[1]], Scan(s[2..], q, short));
    } else if !Stops(s[0], q) {
      BehindBoth(text, [s[0]], Scan(s[1..], q, short));
    } else {
      assert text + "" == text;
    }
  }

  predicate EscapesAt(line: array<char>, p: nat, q: char, short: bool)
    requires p + 1 < line.Length
    reads line
  {
    if short then line[p] == '\\' && line[p + 1] != NUL
    else (line[p] == '\\' && line[p + 1] != NUL && q != '`') || (q != NUL && line[p] == q && line[p + 1] == q)
  }

  lemma EscapesHere(line: array<char>, p: nat, n: nat, q: char, short: bool)
    requires Holds(line, p, n) && line[p] != NUL
    ensures EscapesAt(line, p, q, short) == Escapes(line[p..n], q, short)
    ensures EscapesAt(line, p, q, short) ==> p + 1 < n
  {
    if p + 1 < n {
      assert line[p + 1] != NUL;
    }
  }

  lemma Exhausted(w: Scanned, text: string, q: char, short: bool)
    requires w == Behind(text, Scan("", q, short))
    ensures w == Scanned(text, false, "")
  {
  }

  /** Walks over the argument and tells whether there is one; the line is left alone. */
  method CheckScan(line: array<char>, start: nat, ghost n: nat, q: char, short: bool) returns (ok: bool)
    requires Holds(line, start, n)
    ensures ok <==> Finish(Scan(line[start..n], q, short), q).Some?
  {
    hide Scan, Escapes, EscapesAt, Stops;
    var p := start;
    var open := q;
    ghost var w := Scan(line[start..n], q, short);
    ghost var text := "";
    while line[p] != NUL
      invariant start <= p <= n && open == q && w == Behind(text, Scan(line[p..n], q, short))
      invariant p == start <==> text == ""
      decreases n - p
    {
      ghost var s := line[p..n];
      EscapesHere(line, p, n, q, short);
      OneMore(w, text, s, q, short);
      if EscapesAt(line, p, q, short) {
        assert s[2..] == line[p + 2..n];
        text := text + [s[1]];
        p := p + 1;
      } else if Stops(line[p], q) {
        open := NUL;
        break;
      } else {
        assert s[1..] == line[p + 1..n];
        text := text + [s[0]];
      }
      p := p + 1;
    }
    if line[p] == NUL {
      assert line[p..n] == "";
      Exhausted(w, text, q, short);
    }
    ok := p != start && open == NUL;
  }

  /** The argument stands in the line from `start` to `end` without its escapes, and the text after it from
      `end + 1` to `m`; with `zeroed`, an argument without an end is followed by a second NUL. */
  ghost predicate Cut(line: array<char>, w: Scanned, start: nat, end: nat, m: nat, zeroed: bool)
    reads line
  {
    && Holds(line, start, end) && line[start..end] == w.text
    && (w.closed ==> Holds(line, end + 1, m) && line[end + 1..m] == w.rest)
    && (!w.closed && zeroed ==> end + 1 < line.Length && line[end + 1] == NUL)
  }

  ghost predicate Zeroed(line: array<char>, n: nat)
    reads line
  {
    n + 1 < line.Length && line[n + 1] == NUL
  }

  /** Takes the escapes out of the argument in place and puts a NUL at its end. */
  method TakeScan(line: array<char>, start: nat, ghost n: nat, q: char, short: bool)
    returns (ok: bool, ghost end: nat, ghost m: nat)
    requires Holds(line, start, n)
    modifies line
    ensures ok <==> Finish(Scan(old(line[start..n]), q, short), q).Some?
    ensures Cut(line, Scan(old(line[start..n]), q, short), start, end, m, old(Zeroed(line, n)))
    ensures line[..start] == old(line[..start])
  {
    hide Scan, Escapes, EscapesAt, Stops;
    ghost var zeroed := Zeroed(line, n);
    ghost var w := Scan(line[start..n], q, short);
    var p := start;
    m := n;
    while line[p] != NUL
      invariant start <= p <= m && Holds(line, start, m)
      invariant w == Behind(line[start..p], Scan(line[p..m], q, short))
      invariant line[..start] == old(line[..start]) && (zeroed ==> Zeroed(line, m))
      decreases m - p
    {
      ghost var s := line[p..m];
      ghost var text := line[start..p];
      EscapesHere(line, p, m, q, short);
      OneMore(w, text, s, q, short);
      if EscapesAt(line, p, q, short) {
        ShiftIn(line, start, p, m);
        m := m - 1;
        assert line[p..m] == s[1..];
        assert line[p + 1..m] == s[2..];
        assert line[start..p + 1] == text + [s[1]];
      } else if Stops(line[p], q) {
        line[p] := NUL;
        assert line[start..p] == text && line[p + 1..m] == s[1..];
        return p != start, p, m;
      } else {
        assert line[p + 1..m] == s[1..];
        assert line[start..p + 1] == text + [s[0]];
      }
      p := p + 1;
    }
    assert line[p..m] == "";
    Exhausted(w, line[start..p], q, short);
    return p != start && q == NUL, p, m;
  }

  /** Shifting inside a string that starts earlier. */
  method ShiftIn(line: array<char>, start: nat, p: nat, ghost n: nat)
    requires start <= p && p + 1 <= n && Holds(line, start, n)
    modifies line
    ensures Holds(line, start, n - 1) && line[n] == NUL
    ensures line[p..n - 1] == old(line[p + 1..n]) && line[start..p] == old(line[start..p])
    ensures line[..start] == old(line[..start])
  {
    ShiftLeft(line, p, n);
    assert forall i :: 0 <= i < p ==> line[i] == line[..p][i];
    assert forall i :: p <= i < n - 1 ==> line[i] == line[p..n - 1][i - p];
    assert line[n] == line[n..][0];
  }

  /** Past the spaces and an opening quote. */
  method OpenArgument(line: array<char>, p: nat, ghost n: nat) returns (start: nat, q: char)
    requires Holds(line, p, n)
    ensures var a := SkipSpaces(line[p..n]);
      Holds(line, start, n) && q == QuoteOf(a) && line[start..n] == if q != NUL then a[1..] else a
  {
    hide SkipSpaces;
    start := SkipSpacesAt(line, p, n);
    q := NUL;
    if IsQuote(line[start]) {
      q := line[start];
      start := start + 1;
    }
  }

  /** Past the command, the spaces and an opening quote. */
  method FindArgument(line: array<char>) returns (found: bool, start: nat, q: char, short: bool)
    requires exists i :: 0 <= i < line.Length && line[i] == NUL
    requires WellFormed(Text(line, 0))
    ensures found <==> AfterCommand(Text(line, 0)) != ""
    ensures short == IsShort(Text(line, 0))
    ensures found ==> var n := |Text(line, 0)|; var a := SkipSpaces(AfterCommand(Text(line, 0)));
      Holds(line, start, n) && q == QuoteOf(a) && line[start..n] == if q != NUL then a[1..] else a
  {
    hide Text, SkipSpaces, SkipWord, QuoteOf;
    ghost var all := Text(line, 0);
    ghost var n := |all|;
    start, q := 0, NUL;
    var p := SkipSpacesAt(line, 0, n);
    assert line[p..n] == SkipSpaces(all);
    short := line[p] == '\\';
    if short {
      p := p + 2;
      assert line[p..n] == SkipSpaces(all)[2..];
    } else {
      p := SkipWordAt(line, p, n);
    }
    assert line[p..n] == AfterCommand(all);
    found := line[p] != NUL;
    if found {
      start, q := OpenArgument(line, p, n);
    }
  }

  datatype Mode = CHECK | GET

  /** Where the argument of a command is, or a refusal. Getting it puts it in its final form; checking leaves the
      line alone. */
  method GetArg(line: array<char>, mode: Mode) returns (ok: bool, start: nat, ghost end: nat, ghost m: nat)
    requires exists i :: 0 <= i < line.Length && line[i] == NUL
    requires WellFormed(Text(line, 0))
    modifies if mode.GET? then {line} else {}
    ensures ok <==> ArgumentOf(old(Text(line, 0))).Some?
    ensures ok && mode.GET? ==> Holds(line, 0, end) && start <= end && line[start..end] == ArgumentOf(old(Text(line, 0))).value
    ensures ok && mode.GET? ==>
      Cut(line, ScanArgument(SkipSpaces(AfterCommand(old(Text(line, 0)))), old(IsShort(Text(line, 0)))), start, end, m,
          old(Zeroed(line, |Text(line, 0)|)))
  {
    hide Scan, AfterCommand, IsShort, WellFormed, SkipSpaces, QuoteOf;
    ghost var n := |Text(line, 0)|;
    var found, q, short;
    found, start, q, short := FindArgument(line);
    ok, end, m := false, 0, 0;
    if found {
      if mode == CHECK {
        ok := CheckScan(line, start, n, q, short);
      } else {
        ok, end, m := TakeScan(line, start, n, q, short);
        assert forall i :: 0 <= i < start ==> line[i] == line[..start][i];
      }
    }
  }

  /** The argument after the one that was taken before: what follows the first NUL of the line, if anything. */
  method GetNext(line: array<char>) returns (ok: bool, start: nat, ghost end: nat)
    requires exists i :: 0 <= i < line.Length && line[i] == NUL
    requires |Text(line, 0)| + 1 < line.Length
    requires exists i :: |Text(line, 0)| + 1 <= i < line.Length && line[i] == NUL
    modifies line
    ensures ok <==> old(Text(line, |Text(line, 0)| + 1)) != "" &&
                    Argument(SkipSpaces(old(Text(line, |Text(line, 0)| + 1))), false).Some?
    ensures ok ==> Holds(line, start, end) &&
                   line[start..end] == Argument(SkipSpaces(old(Text(line, |Text(line, 0)| + 1))), false).value
  {
    hide Scan, SkipSpaces, QuoteOf, Text;
    ghost var rest := Text(line, |Text(line, 0)| + 1);
    var p := FindEnd(line, 0);
    assert p == |Text(line, 0)| by {
      OneEnd(line, 0, p, |Text(line, 0)|);
    }
    ghost var n := p + 1 + |rest|;
    assert rest == line[p + 1..n];
    ok, start, end := false, 0, 0;
    if line[p + 1] != NUL {
      var q;
      start, q := OpenArgument(line, p + 1, n);
      ghost var m;
      ok, end, m := TakeScan(line, start, n, q, false);
    }
  }

  // ----- quoted names -----

  function Doubled(name: string): string {
    if name == "" then "" else (if name[0] == '`' then "``" else [name[0]]) + Doubled(name[1..])
  }

  function Quoted(name: string): string {
    "`" + Doubled(name) + "`"
  }

  lemma {:induction false} DoubledBoth(a: string, b: string)
    ensures Doubled(a + b) == Doubled(a) + Doubled(b)
  {
    if a == "" {
      assert a + b == b;
    } else {
      var head := if a[0] == '`' then "``" else [a[0]];
      DoubledBoth(a[1..], b);
      assert (a + b)[1..] == a[1..] + b && (a + b)[0] == a[0];
      assert head + (Doubled(a[1..]) + Doubled(b)) == (head + Doubled(a[1..])) + Doubled(b);
    }
  }

  method QuoteIdentifier(name: string) returns (r: string)
    ensures r == Quoted(name)
  {
    r := "`";
    var i := 0;
    while i < |name|
      invariant i <= |name| && r == "`" + Doubled(name[..i])
    {
      assert name[..i + 1] == name[..i] + [name[i]];
      DoubledBoth(name[..i], [name[i]]);
      if name[i] == '`' {
        r := r + ['`'];
      }
      r := r + [name[i]];
      i := i + 1;
    }
    assert name[..i] == name;
    r := r + ['`'];
  }

  /** Scanning a quoted name in a long command gives back the name. */
  lemma {:induction false} ScanQuoted(name: string, tail: string)
    requires tail == "" || tail[0] != '`'
    ensures Scan(Doubled(name) + "`" + tail, '`', false) == Scanned(name, true, tail)
  {
    var s := Doubled(name) + "`" + tail;
    if name == "" {
      assert s == "`" + tail && s[1..] == tail;
    } else {
      ScanQuoted(name[1..], tail);
      var rest := Doubled(name[1..]) + "`" + tail;
      if name[0] == '`' {
        assert s == "``" + rest && s[2..] == rest;
      } else {
        assert s == [name[0]] + rest && s[1..] == rest;
      }
      assert name == [name[0]] + name[1..];
    }
  }

  lemma {:induction false} SkipOver(spaces: string, s: string)
    requires forall i :: 0 <= i < |spaces| ==> IsSpace(spaces[i])
    requires s == "" || !IsSpace(s[0])
    ensures SkipSpaces(spaces + s) == s
  {
    if spaces == "" {
      assert spaces + s == s;
    } else {
      SkipOver(spaces[1..], s);
      assert (spaces + s)[1..] == spaces[1..] + s;
    }
  }

  lemma {:induction false} SkipOverWord(word: string, s: string)
    requires forall i :: 0 <= i < |word| ==> !IsSpace(word[i])
    requires s == "" || IsSpace(s[0])
    ensures SkipWord(word + s) == s
  {
    if word == "" {
      assert word + s == s;
    } else {
      SkipOverWord(word[1..], s);
      assert (word + s)[1..] == word[1..] + s;
    }
  }

  /** A word, and the white space around it. */
  predicate Command(lead: string, word: string, gap: string) {
    && (forall i :: 0 <= i < |lead| ==> IsSpace(lead[i]))
    && word != "" && (forall i :: 0 <= i < |word| ==> !IsSpace(word[i]))
    && gap != "" && (forall i :: 0 <= i < |gap| ==> IsSpace(gap[i]))
  }

  /** A long command followed by a quoted name has that name as its argument, whatever characters it is made of,
      and leaves what comes after it. */
  lemma NameComesThrough(lead: string, word: string, gap: string, name: string, tail: string)
    requires Command(lead, word, gap) && word[0] != '\\'
    requires tail == "" || tail[0] != '`'
    ensures var line := lead + (word + (gap + (Quoted(name) + tail)));
      && WellFormed(line) && !IsShort(line)
      && ArgumentOf(line) == (if name != "" then Some(name) else None)
      && ScanArgument(SkipSpaces(AfterCommand(line)), false) == Scanned(name, true, tail)
  {
    hide Quoted, SkipSpaces, SkipWord, Scan, Argument, ScanArgument;
    var a := Quoted(name) + tail;
    QuotedArgument(name, tail);
    CommandSkipped(lead, word, gap, a);
  }

  /** What comes after a command and the spaces around it. */
  lemma CommandSkipped(lead: string, word: string, gap: string, a: string)
    requires Command(lead, word, gap) && word[0] != '\\' && (a == "" || !IsSpace(a[0]))
    ensures var line := lead + (word + (gap + a));
      WellFormed(line) && !IsShort(line) && AfterCommand(line) == gap + a && SkipSpaces(gap + a) == a
  {
    SkipOver(lead, word + (gap + a));
    SkipOverWord(word, gap + a);
    SkipOver(gap, a);
  }

  lemma QuotedArgument(name: string, tail: string)
    requires tail == "" || tail[0] != '`'
    ensures var a := Quoted(name) + tail;
      && a != "" && !IsSpace(a[0]) && ScanArgument(a, false) == Scanned(name, true, tail)
      && Argument(a, false) == if name != "" then Some(name) else None
  {
    ScanQuoted(name, tail);
    hide Doubled, Scan;
    var a := Quoted(name) + tail;
    assert a[0] == '`' && a[1..] == Doubled(name) + "`" + tail;
  }

  function Slashes(k: nat): string {
    if k == 0 then "" else ['\\'] + Slashes(k - 1)
  }

  lemma {:induction false} SlashesEnd(k: nat, u: string)
    ensures Slashes(k) + (['\\'] + u) == Slashes(k + 1) + u
  {
    if k > 0 {
      SlashesEnd(k - 1, u);
      assert Slashes(k) + (['\\'] + u) == ['\\'] + (Slashes(k - 1) + (['\\'] + u));
    }
  }

  /** What comes of a backslash: a backslash only from two of them. */
  lemma ShortBackslash(u: string, tail: string)
    requires u != "" && u[0] == '\\'
    ensures var text := Scan(Doubled(u) + "`" + tail, '`', true).text;
      if |u| > 1 && u[1] == '\\' then text == ['\\'] + Scan(Doubled(u[2..]) + "`" + tail, '`', true).text
      else text != "" && text[0] != '\\'
  {
    hide Doubled;
    var s := Doubled(u) + "`" + tail;
    if |u| > 1 {
      FirstTwo(u, tail);
      assert s[1] == u[1];
      if u[1] == '\\' {
        assert s[2..] == Doubled(u)[2..] + "`" + tail;
      }
    } else {
      OnlyOne(u, tail);
    }
  }

  lemma FirstTwo(u: string, tail: string)
    requires |u| > 1 && u[0] == '\\'
    ensures |Doubled(u)| > 1 && Doubled(u)[0] == '\\' && Doubled(u)[1] == u[1]
    ensures u[1] != '`' ==> Doubled(u)[2..] == Doubled(u[2..])
  {
    assert u[1..][1..] == u[2..];
    assert Doubled(u) == ['\\'] + Doubled(u[1..]);
  }

  lemma OnlyOne(u: string, tail: string)
    requires |u| == 1 && u[0] == '\\'
    ensures Doubled(u) + "`" + tail == ['\\', '`'] + tail
  {
    assert u[1..] == "";
  }

  /** A short command that has dropped a backslash never catches up. */
  lemma {:induction false} NeverAhead(u: string, k: nat, tail: string)
    requires k > 0
    ensures Scan(Doubled(u) + "`" + tail, '`', true).text != Slashes(k) + u
    decreases |u|
  {
    assert (Slashes(k) + u)[0] == '\\';
    if |u| > 0 && u[0] == '\\' {
      ShortBackslash(u, tail);
      if |u| > 1 && u[1] == '\\' {
        NeverAhead(u[2..], k + 1, tail);
        AheadByOne(u, k);
        var rest := Scan(Doubled(u[2..]) + "`" + tail, '`', true).text;
        assert (['\\'] + rest)[1..] == rest && (['\\'] + (Slashes(k + 1) + u[2..]))[1..] == Slashes(k + 1) + u[2..];
      }
    } else if |u| > 0 {
      assert (Doubled(u) + "`" + tail)[0] == u[0];
    } else {
      assert Doubled(u) + "`" + tail == "`" + tail;
    }
  }

  lemma AheadByOne(u: string, k: nat)
    requires k > 0 && |u| > 1 && u[0] == u[1] == '\\'
    ensures Slashes(k) + u == ['\\'] + (Slashes(k + 1) + u[2..])
  {
    SlashesEnd(k, u[1..]);
    SlashesEnd(k, u[2..]);
    assert u == ['\\'] + u[1..] && u[1..] == ['\\'] + u[2..];
    assert Slashes(k + 1) + u[1..] == ['\\'] + (Slashes(k) + u[1..]);
  }

  /** A character that is neither a backquote nor a backslash comes through. */
  lemma OneMoreThrough(name: string, tail: string)
    requires name != "" && name[0] != '`' && name[0] != '\\'
    ensures var r := Scan(Doubled(name[1..]) + "`" + tail, '`', true);
      && Scan(Doubled(name) + "`" + tail, '`', true) == Behind([name[0]], r)
      && ([name[0]] + r.text == name <==> r.text == name[1..])
    ensures (forall i :: 0 <= i < |name| ==> name[i] != '`' && name[i] != '\\') <==>
            (forall i :: 0 <= i < |name[1..]| ==> name[1..][i] != '`' && name[1..][i] != '\\')
  {
    var s, rest := Doubled(name) + "`" + tail, Doubled(name[1..]) + "`" + tail;
    assert s == [name[0]] + rest && s[1..] == rest;
    var r := Scan(rest, '`', true);
    assert ([name[0]] + r.text)[1..] == r.text && name == [name[0]] + name[1..];
    assert forall i :: 1 <= i < |name| ==> name[i] == name[1..][i - 1];
  }

  /** Scanned by the rules of short commands, which know no doubled quotes, a quoted name is given back exactly
      when it holds neither a backquote nor a backslash. */
  lemma {:induction false} ShortScan(name: string, tail: string)
    ensures Scan(Doubled(name) + "`" + tail, '`', true).text == name <==>
            forall i :: 0 <= i < |name| ==> name[i] != '`' && name[i] != '\\'
    ensures Scan(Doubled(name) + "`" + tail, '`', true).text == name ==>
            Scan(Doubled(name) + "`" + tail, '`', true) == Scanned(name, true, tail)
  {
    var s := Doubled(name) + "`" + tail;
    if name == "" {
      assert s == "`" + tail;
    } else if name[0] == '\\' {
      ShortBackslash(name, tail);
      if |name| > 1 && name[1] == '\\' {
        NeverAhead(name[2..], 1, tail);
        assert Slashes(1) == ['\\'];
        assert name == ['\\'] + (['\\'] + name[2..]);
      }
    } else {
      assert s[0] == name[0];
      if name[0] != '`' {
        ShortScan(name[1..], tail);
        OneMoreThrough(name, tail);
      }
    }
  }

  /** Neither a backquote nor a backslash. */
  predicate Harmless(name: string) {
    forall i :: 0 <= i < |name| ==> name[i] != '`' && name[i] != '\\'
  }

  /** A short command followed by a quoted name has that name as its argument if and only if the name holds neither a
      backquote nor a backslash: the rules of short commands know no doubled quotes, and take backslashes as escapes. */
  lemma ShortNameComesThrough(lead: string, letter: char, gap: string, name: string, tail: string)
    requires (forall i :: 0 <= i < |lead| ==> IsSpace(lead[i])) && (forall i :: 0 <= i < |gap| ==> IsSpace(gap[i]))
    ensures var line := lead + (['\\', letter] + (gap + (Quoted(name) + tail)));
      && WellFormed(line) && IsShort(line)
      && (if name == "" then ArgumentOf(line) == None else ArgumentOf(line) == Some(name) <==> Harmless(name))
      && (Harmless(name) ==> ScanArgument(SkipSpaces(AfterCommand(line)), true) == Scanned(name, true, tail))
  {
    hide Quoted, SkipSpaces, Scan, Argument, ScanArgument, Harmless;
    var a := Quoted(name) + tail;
    ShortArgument(name, tail);
    ShortSkipped(lead, letter, gap, a);
  }

  lemma ShortSkipped(lead: string, letter: char, gap: string, a: string)
    requires (forall i :: 0 <= i < |lead| ==> IsSpace(lead[i])) && (forall i :: 0 <= i < |gap| ==> IsSpace(gap[i]))
    requires a != "" && !IsSpace(a[0])
    ensures var line := lead + (['\\', letter] + (gap + a));
      WellFormed(line) && IsShort(line) && AfterCommand(line) == gap + a != "" && SkipSpaces(gap + a) == a
  {
    SkipOver(lead, ['\\', letter] + (gap + a));
    SkipOver(gap, a);
  }

  lemma ShortArgument(name: string, tail: string)
    ensures var a := Quoted(name) + tail;
      && a != "" && !IsSpace(a[0])
      && (if name == "" then Argument(a, true) == None else Argument(a, true) == Some(name) <==> Harmless(name))
      && (Harmless(name) ==> ScanArgument(a, true) == Scanned(name, true, tail))
  {
    ShortScan(name, tail);
    var a := Quoted(name) + tail;
    assert a[0] == '`' && a[1..] == Doubled(name) + "`" + tail;
  }
}
