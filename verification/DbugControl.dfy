/** The control strings of dbug: parsing one into settings, and explaining settings as a control string. */
module DbugControl {
  import opened DbugTracing

  const MAXDEPTH := 200
  const UINT_RANGE := 0x1_0000_0000
  const INT_LIMIT := 0x8000_0000

  datatype Output = Stderr | Stdout | File

  /** The flags that a letter of their own switches on and off. */
  const MARKS: set<char> := {'F', 'i', 'L', 'n', 'N', 'P', 'T', 'S'}

  datatype Sink = Sink(output: Output, name: string, flush: bool, append: bool)

  /** What a control string describes; `marks` holds the letters of the flags that are on. */
  datatype Control = Control(
    debugOn: bool, keywords: seq<Link>, functions: seq<Link>, processes: seq<Link>, marks: set<char>, sink: Sink,
    delay: nat, traceOn: bool, maxDepth: nat, subLevel: nat)

  /** The settings that a control string without a leading sign starts from. */
  const START := Control(false, [], [], [], {}, Sink(Stderr, "", false, false), 0, false, 0, 0)

  /** The nesting level at which a string is parsed, and which files can be opened. */
  datatype World = World(level: nat, opens: string -> bool)

  // ----- parsing -----

  /** The length of the first field: up to a colon that is not part of a path and not doubled. */
  function FieldEnd(s: string): (n: nat)
    ensures n <= |s|
  {
    if s == "" then 0
    else if s[0] != ':' || (|s| > 1 && (s[1] == '\\' || s[1] == '/')) then 1 + FieldEnd(s[1..])
    else if |s| > 1 && s[1] == ':' then 2 + FieldEnd(s[2..])
    else 0
  }

  function UpTo(s: string, c: char): (n: nat)
    ensures n <= |s|
  {
    if s == "" || s[0] == c then 0 else 1 + UpTo(s[1..], c)
  }

  /** Adds a name to a list to be included, or to be excluded; a link whose name starts with it counts as present. */
  function AddName(list: seq<Link>, name: string, subdir: bool, del: bool): seq<Link> {
    if list == [] then [Link(name, !del, del, subdir)]
    else if name <= list[0].name then
      if (if del then list[0].excluded else list[0].included) then
        [list[0].(subdir := list[0].subdir || subdir)] + list[1..]
      else if del then list[1..]
      else [list[0].(included := true, subdir := list[0].subdir || subdir)] + list[1..]
    else [list[0]] + AddName(list[1..], name, subdir, del)
  }

  function AddWord(list: seq<Link>, word: string, del: bool): seq<Link> {
    var subdir := word != "" && word[|word| - 1] == '/';
    var name := if subdir then word[..|word| - 1] else word;
    if name == "" then list else AddName(list, name, subdir, del)
  }

  /** Adds comma separated names. */
  function AddWords(list: seq<Link>, args: string, del: bool): seq<Link>
    decreases |args|
  {
    if args == "" then list
    else
      var n := UpTo(args, ',');
      var list' := AddWord(list, args[..n], del);
      if n == |args| then list' else AddWords(list', args[n + 1..], del)
  }

  predicate IsDigit(c: char) {
    '0' <= c <= '9'
  }

  /** The number that a string of digits and whatever follows starts with. */
  function Number(s: string, sofar: nat): nat {
    if s != "" && IsDigit(s[0]) then Number(s[1..], 10 * sofar + (s[0] as int - '0' as int)) else sofar
  }

  function Atoi(s: string): int {
    if s != "" && (s[0] == ' ' || '\t' <= s[0] <= '\r') then Atoi(s[1..])
    else if s != "" && s[0] == '-' then 0 - Number(s[1..], 0)
    else if s != "" && s[0] == '+' then Number(s[1..], 0)
    else Number(s, 0)
  }

  function Unsigned(x: int): nat {
    x % UINT_RANGE
  }

  function OpenFile(k: Sink, name: string, w: World): Sink {
    if name == "-" then k.(output := Stdout, flush := true, name := "")
    else if w.opens(name) then k.(output := File, name := name)
    else k.(name := name)
  }

  function SetSink(k: Sink, c: char, minus: bool, args: string, w: World): Sink {
    var k' := if c == 'A' || c == 'O' then k.(flush := true) else k;
    if minus then k'.(output := Stderr, flush := false)
    else OpenFile(k'.(append := c == 'a' || c == 'A'), if args != "" then args else "-", w)
  }

  function SetDepth(s: Control, minus: bool, args: string): Control {
    var d :=
      if minus then (if args != "" then Unsigned(s.maxDepth - Atoi(args)) else 0)
      else (if args != "" then Unsigned(s.maxDepth + Atoi(args)) else MAXDEPTH);
    s.(maxDepth := d, traceOn := d > 0)
  }

  function EditList(list: seq<Link>, minus: bool, args: string): seq<Link> {
    if minus && args == "" then [] else AddWords(list, args, minus)
  }

  function SetKeywords(s: Control, minus: bool, args: string): Control {
    if minus && args == "" then s.(keywords := [], debugOn := false)
    else if minus then (if s.debugOn then s.(keywords := AddWords(s.keywords, args, true)) else s)
    else s.(keywords := AddWords(s.keywords, args, false), debugOn := true)
  }

  /** What a field does, given its letter, whether it has a minus sign, and its arguments. */
  function Apply(s: Control, c: char, minus: bool, args: string, w: World): Control {
    if c in MARKS then s.(marks := if minus then s.marks - {c} else s.marks + {c})
    else
      match c
      case 'd' => SetKeywords(s, minus, args)
      case 'D' => s.(delay := Unsigned(Atoi(args)))
      case 'f' => s.(functions := EditList(s.functions, minus, args))
      case 'A' => s.(sink := SetSink(s.sink, c, minus, args, w))
      case 'O' => s.(sink := SetSink(s.sink, c, minus, args, w))
      case 'a' => s.(sink := SetSink(s.sink, c, minus, args, w))
      case 'o' => s.(sink := SetSink(s.sink, c, minus, args, w))
      case 'p' => s.(processes := EditList(s.processes, minus, args))
      case 'r' => s.(subLevel := w.level)
      case 't' => SetDepth(s, minus, args)
      case _ => s
  }

  function Unsign(field: string): string {
    if field != "" && (field[0] == '+' || field[0] == '-') then field[1..] else field
  }

  function ApplyField(s: Control, field: string, w: World): Control {
    var f := Unsign(field);
    if f == "" then s
    else Apply(s, f[0], field[0] == '-', if |f| > 1 && f[1] == ',' then f[2..] else f[1..], w)
  }

  /** Reads the fields in turn, up to the end or to an empty field. */
  function Parse(s: Control, control: string, w: World): Control
    decreases |control|
  {
    var n := FieldEnd(control);
    if n == 0 then s
    else
      var s' := ApplyField(s, control[..n], w);
      if n == |control| then s' else Parse(s', control[n + 1..], w)
  }

  /** A field for the list of functions. */
  predicate EditsFunctions(field: string) {
    Unsign(field) != "" && Unsign(field)[0] == 'f'
  }

  /** One of the fields that are read is for the list of functions. */
  predicate UsesFunctions(control: string)
    decreases |control|
  {
    var n := FieldEnd(control);
    n > 0 && (EditsFunctions(control[..n]) || (n < |control| && UsesFunctions(control[n + 1..])))
  }

  /** Only a field for the list of functions changes that list. */
  lemma {:induction false} FunctionsKept(s: Control, control: string, w: World)
    requires !UsesFunctions(control)
    ensures Parse(s, control, w).functions == s.functions
    decreases |control|
  {
    var n := FieldEnd(control);
    if n > 0 {
      var s' := ApplyField(s, control[..n], w);
      FieldKeepsFunctions(s, control[..n], w);
      if n < |control| {
        FunctionsKept(s', control[n + 1..], w);
      }
    }
  }

  lemma FieldKeepsFunctions(s: Control, field: string, w: World)
    requires !EditsFunctions(field)
    ensures ApplyField(s, field, w).functions == s.functions
  {
    hide AddWords, Atoi, SetSink;
  }

  // ----- explaining -----

  function Digits(n: nat): string {
    if n < 10 then [('0' as int + n) as char] else Digits(n / 10) + [('0' as int + n % 10) as char]
  }

  function LinkText(l: Link): string {
    "," + l.name + if l.subdir then "/" else ""
  }

  /** The names that are included, or those that are excluded. */
  function ListText(list: seq<Link>, del: bool): string {
    if list == [] then ""
    else (if (if del then list[0].excluded else list[0].included) then LinkText(list[0]) else "") + ListText(list[1..], del)
  }

  function Field(b: bool, field: string): seq<string> {
    if b then [field] else []
  }

  predicate HasExcluded(list: seq<Link>) {
    exists i :: 0 <= i < |list| && list[i].excluded
  }

  function ListFields(b: bool, c: char, list: seq<Link>): seq<string> {
    Field(b, [c] + ListText(list, false)) + Field(b && HasExcluded(list), ['-', c] + ListText(list, true))
  }

  function SinkText(k: Sink): string {
    [if k.flush then (if k.append then 'A' else 'O') else (if k.append then 'a' else 'o')]
    + if k.name != "" then "," + k.name else ""
  }

  function DepthText(depth: nat): string {
    "t" + if depth != MAXDEPTH then "," + Digits(depth) else ""
  }

  /** The letters of the flags that are on, in the given order. */
  function MarkFields(marks: set<char>, letters: string): seq<string> {
    if letters == "" then [] else Field(letters[0] in marks, [letters[0]]) + MarkFields(marks, letters[1..])
  }

  function Fields(s: Control): seq<string> {
    ListFields(s.debugOn, 'd', s.keywords)
    + (Field(s.delay != 0, "D," + Digits(s.delay))
    + (ListFields(s.functions != [], 'f', s.functions)
    + (MarkFields(s.marks, "FiLnN")
    + (Field(s.sink.output != Stderr, SinkText(s.sink))
    + (ListFields(s.processes != [], 'p', s.processes)
    + (MarkFields(s.marks, "P")
    + (Field(s.subLevel != 0, "r")
    + (Field(s.traceOn, DepthText(s.maxDepth))
    + MarkFields(s.marks, "TS")))))))))
  }

  function Join(fields: seq<string>): string {
    if fields == [] then "" else if |fields| == 1 then fields[0] else fields[0] + ":" + Join(fields[1..])
  }

  function Explain(s: Control): string {
    Join(Fields(s))
  }

  // ----- fields and their separators -----

  /** No field ends inside `t`: every colon in it is part of a path or doubled. */
  predicate NoBreak(t: string) {
    FieldEnd(t) == |t|
  }

  /** Can stand between separators. */
  predicate Solid(t: string) {
    t != "" && NoBreak(t) && t[0] != ':' && t[0] != '\\' && t[0] != '/'
  }

  lemma {:induction false} EndOfBoth(t: string, rest: string)
    requires NoBreak(t)
    ensures FieldEnd(t + rest) == |t| + FieldEnd(rest)
    decreases |t|
  {
    if t == "" {
      assert t + rest == rest;
    } else if t[0] != ':' || t[1] != ':' {
      EndOfBoth(t[1..], rest);
      assert (t + rest)[1..] == t[1..] + rest;
    } else {
      EndOfBoth(t[2..], rest);
      assert (t + rest)[2..] == t[2..] + rest;
    }
  }

  lemma EndOfField(t: string, rest: string)
    requires NoBreak(t) && (rest == "" || (rest[0] == ':' && |rest| > 1 && rest[1] != ':' && rest[1] != '\\' && rest[1] != '/'))
    ensures FieldEnd(t + rest) == |t|
  {
    EndOfBoth(t, rest);
  }

  function ApplyAll(s: Control, fields: seq<string>, w: World): Control
    decreases |fields|
  {
    if fields == [] then s else ApplyAll(ApplyField(s, fields[0], w), fields[1..], w)
  }

  lemma {:induction false} ApplyBoth(s: Control, a: seq<string>, b: seq<string>, w: World)
    ensures ApplyAll(s, a + b, w) == ApplyAll(ApplyAll(s, a, w), b, w)
    decreases |a|
  {
    hide ApplyField;
    if a == [] {
      assert a + b == b;
    } else {
      ApplyBoth(ApplyField(s, a[0], w), a[1..], b, w);
      assert (a + b)[1..] == a[1..] + b;
    }
  }

  /** Parsing takes joined fields apart again. */
  lemma {:induction false} ParseJoined(s: Control, fields: seq<string>, w: World)
    requires forall i :: 0 <= i < |fields| ==> Solid(fields[i])
    ensures Parse(s, Join(fields), w) == ApplyAll(s, fields, w)
    decreases |fields|
  {
    hide ApplyField;
    if |fields| == 1 {
      EndOfField(fields[0], "");
      assert fields[0] + "" == fields[0];
      assert fields[0][..|fields[0]|] == fields[0];
      assert fields[1..] == [];
    } else if |fields| > 1 {
      var rest := ":" + Join(fields[1..]);
      StartsSolid(fields[1..]);
      EndOfField(fields[0], rest);
      assert Join(fields) == fields[0] + rest;
      assert (fields[0] + rest)[..|fields[0]|] == fields[0];
      assert (fields[0] + rest)[|fields[0]| + 1..] == Join(fields[1..]);
      ParseJoined(ApplyField(s, fields[0], w), fields[1..], w);
    }
  }

  lemma StartsSolid(fields: seq<string>)
    requires fields != [] && Solid(fields[0])
    ensures Join(fields) != "" && Join(fields)[0] == fields[0][0]
  {
  }

  // ----- lists -----

  /** A link that can be written down: a name without separators, to be included, excluded or both. */
  predicate Plain(l: Link) {
    && l.name != "" && NoBreak(Word(l)) && (forall i :: 0 <= i < |l.name| ==> l.name[i] != ',')
    && (l.name[|l.name| - 1] == '/' ==> l.subdir) && (l.included || l.excluded)
  }

  predicate AllPlain(list: seq<Link>) {
    forall i :: 0 <= i < |list| ==> Plain(list[i])
  }

  /** No name is a prefix of one before it. */
  predicate NoClash(list: seq<Link>) {
    forall i, j :: 0 <= i < j < |list| ==> !(list[j].name <= list[i].name)
  }

  predicate Chosen(l: Link, del: bool) {
    if del then l.excluded else l.included
  }

  /** To be included only, or to be excluded only. */
  function Only(l: Link, del: bool): Link {
    l.(included := !del, excluded := del)
  }

  predicate AllOnly(links: seq<Link>, del: bool) {
    forall i :: 0 <= i < |links| ==> links[i] == Only(links[i], del)
  }

  /** The links to be included, or those to be excluded; a link for both is in both. */
  function Select(list: seq<Link>, del: bool): seq<Link> {
    if list == [] then []
    else (if Chosen(list[0], del) then [Only(list[0], del)] else []) + Select(list[1..], del)
  }

  /** A list in the order in which it is written down. */
  function Printed(list: seq<Link>): seq<Link> {
    Select(list, false) + Select(list, true)
  }

  lemma {:induction false} AddNew(list: seq<Link>, name: string, subdir: bool, del: bool)
    requires forall i :: 0 <= i < |list| ==> !(name <= list[i].name)
    ensures AddName(list, name, subdir, del) == list + [Link(name, !del, del, subdir)]
  {
    if list != [] {
      AddNew(list[1..], name, subdir, del);
    }
  }

  lemma {:induction false} WordEnds(word: string, rest: string)
    requires (forall i :: 0 <= i < |word| ==> word[i] != ',') && (rest == "" || rest[0] == ',')
    ensures UpTo(word + rest, ',') == |word|
  {
    if word == "" {
      assert word + rest == rest;
    } else {
      WordEnds(word[1..], rest);
      assert (word + rest)[1..] == word[1..] + rest;
    }
  }

  function Word(l: Link): string {
    l.name + if l.subdir then "/" else ""
  }

  lemma AddPlain(list: seq<Link>, l: Link, del: bool)
    requires Plain(l) && l == Only(l, del)
    requires forall i :: 0 <= i < |list| ==> !(l.name <= list[i].name)
    ensures AddWord(list, Word(l), del) == list + [l]
  {
    hide NoBreak;
    AddNew(list, l.name, l.subdir, del);
    assert l == Link(l.name, !del, del, l.subdir);
    if l.subdir {
      assert Word(l)[..|l.name|] == l.name;
    } else {
      assert Word(l) == l.name;
    }
  }

  /** The text of some links without its first comma. */
  function Words(list: seq<Link>): string {
    if list == [] then "" else Word(list[0]) + if |list| == 1 then "" else "," + Words(list[1..])
  }

  function WithComma(links: seq<Link>): string {
    if links == [] then "" else "," + Words(links)
  }

  lemma OneLinkMore(l: Link, rest: seq<Link>)
    ensures WithComma([l] + rest) == LinkText(l) + WithComma(rest)
  {
    assert ([l] + rest)[1..] == rest;
    if rest == [] {
      assert Words([l] + rest) == Word(l);
    } else {
      assert Words([l] + rest) == Word(l) + ("," + Words(rest));
    }
  }

  lemma {:induction false} TextIsWords(list: seq<Link>, del: bool)
    ensures ListText(list, del) == WithComma(Select(list, del))
  {
    hide WithComma, LinkText;
    if list != [] {
      TextIsWords(list[1..], del);
      OneLinkMore(Only(list[0], del), Select(list[1..], del));
      SameText(list[0], del);
      assert [] + Select(list[1..], del) == Select(list[1..], del);
      assert "" + ListText(list[1..], del) == ListText(list[1..], del);
    } else {
      assert WithComma([]) == "" by {
        NoLinks();
      }
    }
  }

  lemma SameText(l: Link, del: bool)
    ensures LinkText(Only(l, del)) == LinkText(l)
  {
  }

  lemma NoLinks()
    ensures WithComma([]) == ""
  {
  }

  lemma FirstIsNew(acc: seq<Link>, links: seq<Link>)
    requires links != [] && NoClash(acc + links)
    ensures forall i :: 0 <= i < |acc| ==> !(links[0].name <= acc[i].name)
  {
    forall i | 0 <= i < |acc|
      ensures !(links[0].name <= acc[i].name)
    {
      assert (acc + links)[i] == acc[i] && (acc + links)[|acc|] == links[0];
    }
  }

  /** The first of several words. */
  lemma FirstWord(links: seq<Link>, acc: seq<Link>, del: bool)
    requires links != [] && Plain(links[0])
    ensures AddWords(acc, Words(links), del) == AddWords(AddWord(acc, Word(links[0]), del), Words(links[1..]), del)
  {
    hide NoBreak, AddWord;
    var word := Word(links[0]);
    var rest := if |links| == 1 then "" else "," + Words(links[1..]);
    assert forall i :: 0 <= i < |word| ==> word[i] != ',';
    WordEnds(word, rest);
    assert (word + rest)[..|word|] == word;
    if |links| > 1 {
      assert (word + rest)[|word| + 1..] == Words(links[1..]);
    }
  }

  /** Reading back the names of links adds those links. */
  lemma {:induction false} AddsBack(acc: seq<Link>, links: seq<Link>, del: bool)
    requires AllPlain(links) && AllOnly(links, del) && NoClash(acc + links)
    ensures AddWords(acc, Words(links), del) == acc + links
    decreases |links|
  {
    hide AddWords, Words, NoClash, Plain;
    if links != [] {
      FirstIsNew(acc, links);
      AddPlain(acc, links[0], del);
      FirstWord(links, acc, del);
      assert acc + links == acc + [links[0]] + links[1..];
      AddsBack(acc + [links[0]], links[1..], del);
    } else {
      NoWords(acc, del);
    }
  }

  lemma NoWords(acc: seq<Link>, del: bool)
    ensures AddWords(acc, Words([]), del) == acc
  {
  }

  // ----- numbers -----

  predicate AllDigits(t: string) {
    forall i :: 0 <= i < |t| ==> IsDigit(t[i])
  }

  lemma {:induction false} NumberOfBoth(a: string, c: char, sofar: nat)
    requires AllDigits(a) && IsDigit(c)
    ensures Number(a + [c], sofar) == 10 * Number(a, sofar) + (c as int - '0' as int)
    decreases |a|
  {
    if a == "" {
      assert a + [c] == [c];
      assert [c][1..] == "";
    } else {
      NumberOfBoth(a[1..], c, 10 * sofar + (a[0] as int - '0' as int));
      assert (a + [c])[1..] == a[1..] + [c];
    }
  }

  /** Reading a number that was written down gives it back. */
  lemma {:induction false} NumberOfDigits(n: nat)
    ensures AllDigits(Digits(n)) && Digits(n) != "" && Number(Digits(n), 0) == n && Atoi(Digits(n)) == n
  {
    if n >= 10 {
      NumberOfDigits(n / 10);
      NumberOfBoth(Digits(n / 10), ('0' as int + n % 10) as char, 0);
    } else {
      assert Digits(n)[1..] == "";
    }
  }

  // ----- the fields one by one -----

  lemma ApplyOne(s: Control, b: bool, field: string, w: World)
    ensures ApplyAll(s, Field(b, field), w) == if b then ApplyField(s, field, w) else s
  {
    hide ApplyField;
    if b {
      assert Field(b, field)[1..] == [];
      assert ApplyAll(ApplyField(s, field, w), [], w) == ApplyField(s, field, w);
    }
  }

  /** A letter and its arguments. */
  lemma ApplyLetter(s: Control, c: char, args: string, w: World)
    requires c != '+' && c != '-' && c != ','
    ensures ApplyField(s, [c], w) == Apply(s, c, false, "", w)
    ensures ApplyField(s, [c] + ("," + args), w) == Apply(s, c, false, args, w)
    ensures ApplyField(s, ['-', c] + ("," + args), w) == Apply(s, c, true, args, w)
  {
    hide Apply;
    assert ([c] + ("," + args))[2..] == args;
    assert (['-', c] + ("," + args))[1..] == [c] + ("," + args);
    assert [c][1..] == "";
  }

  lemma ApplyMark(m: Control, marks: set<char>, letters: string, w: World)
    requires letters != "" && letters[0] in MARKS
    ensures ApplyAll(m, MarkFields(marks, letters), w) ==
            ApplyAll(if letters[0] in marks then m.(marks := m.marks + {letters[0]}) else m, MarkFields(marks, letters[1..]), w)
  {
    hide ApplyField, ApplyAll, Field;
    var c := letters[0];
    ApplyBoth(m, Field(c in marks, [c]), MarkFields(marks, letters[1..]), w);
    ApplyOne(m, c in marks, [c], w);
    ApplyLetter(m, c, "", w);
  }

  lemma {:induction false} ApplyMarks(m: Control, marks: set<char>, letters: string, w: World)
    requires forall c :: c in letters ==> c in MARKS
    ensures ApplyAll(m, MarkFields(marks, letters), w) == m.(marks := m.marks + set c | c in letters && c in marks)
    decreases |letters|
  {
    if letters != "" {
      hide ApplyField, ApplyAll, MarkFields, Apply;
      var c := letters[0];
      assert c in letters && c in MARKS;
      var m' := if c in marks then m.(marks := m.marks + {c}) else m;
      ApplyMark(m, marks, letters, w);
      ApplyMarks(m', marks, letters[1..], w);
      assert letters == [c] + letters[1..];
      assert m.marks + (set x | x in letters && x in marks) == m'.marks + set x | x in letters[1..] && x in marks;
    } else {
      assert MarkFields(marks, letters) == [];
      assert m.marks + (set x | x in letters && x in marks) == m.marks;
    }
  }

  /** The list that reading back a list gives: first the names to include, then those to exclude. */
  function ReadBack(list: seq<Link>): seq<Link> {
    AddWords(AddWords([], Words(Select(list, false)), false), Words(Select(list, true)), true)
  }

  lemma ListReadBack(list: seq<Link>)
    requires AllPlain(list) && NoClash(Printed(list))
    ensures ReadBack(list) == Printed(list)
  {
    hide Plain, AddWords, Select, NoClash;
    var yes, no := Select(list, false), Select(list, true);
    PlainSelected(list, false);
    PlainSelected(list, true);
    assert [] + yes == yes;
    NoClashInFront(yes, no);
    AddsBack([], yes, false);
    AddsBack(yes, no, true);
  }

  lemma NoClashInFront(a: seq<Link>, b: seq<Link>)
    requires NoClash(a + b)
    ensures NoClash(a)
  {
    assert forall i :: 0 <= i < |a| ==> (a + b)[i] == a[i];
  }

  lemma {:induction false} PlainSelected(list: seq<Link>, del: bool)
    requires AllPlain(list)
    ensures AllPlain(Select(list, del)) && AllOnly(Select(list, del), del)
  {
    if list != [] {
      hide Plain;
      assert Plain(list[0]);
      PlainOnly(list[0], del);
      PlainSelected(list[1..], del);
    }
  }

  lemma PlainOnly(l: Link, del: bool)
    requires Plain(l)
    ensures Plain(Only(l, del)) && Only(Only(l, del), del) == Only(l, del)
  {
    hide NoBreak;
    assert Word(Only(l, del)) == Word(l);
  }

  lemma {:induction false} SelectEmpty(list: seq<Link>)
    ensures Select(list, true) == [] <==> !HasExcluded(list)
  {
    if list != [] {
      SelectEmpty(list[1..]);
      assert HasExcluded(list) <==> list[0].excluded || HasExcluded(list[1..]) by {
        if i :| 0 <= i < |list| && list[i].excluded && i > 0 {
          assert list[1..][i - 1].excluded;
        }
        if i :| 0 <= i < |list[1..]| && list[1..][i].excluded {
          assert list[i + 1].excluded;
        }
      }
    }
  }

  /** The fields of a list under letter `c`. */
  lemma ApplyList(m: Control, b: bool, c: char, list: seq<Link>, w: World)
    requires c != '+' && c != '-' && c != ','
    ensures ApplyAll(m, ListFields(b, c, list), w) ==
      if !b then m
      else
        var m' := Apply(m, c, false, Words(Select(list, false)), w);
        if Select(list, true) == [] then m' else Apply(m', c, true, Words(Select(list, true)), w)
  {
    hide Apply, ApplyField, ApplyAll, Select, Words, Field, ListText;
    var yes, no := Select(list, false), Select(list, true);
    var field, minus := [c] + ListText(list, false), ['-', c] + ListText(list, true);
    ApplyBoth(m, Field(b, field), Field(b && HasExcluded(list), minus), w);
    ApplyOne(m, b, field, w);
    SelectEmpty(list);
    TextIsWords(list, false);
    TextIsWords(list, true);
    EmptyWords();
    assert [c] + "" == [c];
    var m' := if b then Apply(m, c, false, Words(yes), w) else m;
    ApplyLetter(m, c, Words(yes), w);
    ApplyOne(m', b && HasExcluded(list), minus, w);
    ApplyLetter(m', c, Words(no), w);
  }

  lemma EmptyWords()
    ensures Words([]) == ""
  {
  }

  lemma SomeWords(links: seq<Link>)
    requires AllPlain(links) && links != []
    ensures Words(links) != ""
  {
    hide NoBreak;
    assert Plain(links[0]);
  }

  lemma KeywordsReadBack(m: Control, s: Control, w: World)
    requires !m.debugOn && m.keywords == [] && (s.debugOn ==> AllPlain(s.keywords))
    ensures ApplyAll(m, ListFields(s.debugOn, 'd', s.keywords), w) ==
            if s.debugOn then m.(debugOn := true, keywords := ReadBack(s.keywords)) else m
  {
    hide ApplyAll, Words, AllPlain, AddWords, ListFields, Select;
    ApplyList(m, s.debugOn, 'd', s.keywords, w);
    WordsToAdd(s.debugOn, s.keywords);
  }

  /** Excluding nothing changes nothing, and there is something to exclude otherwise. */
  lemma WordsToAdd(b: bool, list: seq<Link>)
    requires b ==> AllPlain(list)
    ensures b && Select(list, true) != [] ==> Words(Select(list, true)) != ""
    ensures Select(list, true) == [] ==> ReadBack(list) == AddWords([], Words(Select(list, false)), false)
  {
    hide Select, Plain;
    if b && Select(list, true) != [] {
      PlainSelected(list, true);
      SomeWords(Select(list, true));
    }
    NoWords(AddWords([], Words(Select(list, false)), false), true);
  }

  lemma FunctionsReadBack(m: Control, s: Control, w: World)
    requires m.functions == [] && AllPlain(s.functions)
    ensures ApplyAll(m, ListFields(s.functions != [], 'f', s.functions), w) == m.(functions := ReadBack(s.functions))
  {
    hide ApplyAll, Words, AllPlain, AddWords, ListFields, Select;
    ApplyList(m, s.functions != [], 'f', s.functions, w);
    WordsToAdd(true, s.functions);
    NothingReadBack();
  }

  lemma ProcessesReadBack(m: Control, s: Control, w: World)
    requires m.processes == [] && AllPlain(s.processes)
    ensures ApplyAll(m, ListFields(s.processes != [], 'p', s.processes), w) == m.(processes := ReadBack(s.processes))
  {
    hide ApplyAll, Words, AllPlain, AddWords, ListFields, Select;
    ApplyList(m, s.processes != [], 'p', s.processes, w);
    WordsToAdd(true, s.processes);
    NothingReadBack();
  }

  lemma NothingReadBack()
    ensures ReadBack([]) == []
  {
  }

  lemma NothingSelected(del: bool)
    ensures Select([], del) == []
  {
  }

  /** What is written down of the output: nothing for the error output, and standard output has no name. */
  predicate GoodSink(k: Sink, w: World) {
    match k.output
    case Stderr => true
    case Stdout => k.name == "" && k.flush
    case File => k.name != "" && k.name != "-" && NoBreak(k.name) && w.opens(k.name)
  }

  lemma SinkReadBack(m: Control, k: Sink, w: World)
    requires GoodSink(k, w) && m.sink == START.sink
    ensures ApplyAll(m, Field(k.output != Stderr, SinkText(k)), w) == if k.output == Stderr then m else m.(sink := k)
  {
    hide ApplyAll, ApplyField;
    ApplyOne(m, k.output != Stderr, SinkText(k), w);
    var c := SinkText(k)[0];
    ApplyLetter(m, c, k.name, w);
    assert k.name == "" ==> SinkText(k) == [c];
    assert k.name != "" ==> SinkText(k) == [c] + ("," + k.name);
  }

  lemma DepthReadBack(m: Control, s: Control, w: World)
    requires m.maxDepth == 0 && !m.traceOn && (s.traceOn ==> 0 < s.maxDepth < INT_LIMIT)
    ensures ApplyAll(m, Field(s.traceOn, DepthText(s.maxDepth)), w) ==
            if s.traceOn then m.(traceOn := true, maxDepth := s.maxDepth) else m
  {
    hide ApplyAll, ApplyField, Atoi, Digits;
    ApplyOne(m, s.traceOn, DepthText(s.maxDepth), w);
    ApplyLetter(m, 't', Digits(s.maxDepth), w);
    NumberOfDigits(s.maxDepth);
    assert DepthText(MAXDEPTH) == "t";
  }

  lemma DelayReadBack(m: Control, s: Control, w: World)
    requires m.delay == 0 && s.delay < INT_LIMIT
    ensures ApplyAll(m, Field(s.delay != 0, "D," + Digits(s.delay)), w) == m.(delay := s.delay)
  {
    hide ApplyAll, ApplyField, Atoi, Digits;
    ApplyOne(m, s.delay != 0, "D," + Digits(s.delay), w);
    ApplyLetter(m, 'D', Digits(s.delay), w);
    NumberOfDigits(s.delay);
    assert "D," + Digits(s.delay) == "D" + ("," + Digits(s.delay));
  }

  lemma LevelReadBack(m: Control, s: Control, w: World)
    requires m.subLevel == 0
    ensures ApplyAll(m, Field(s.subLevel != 0, "r"), w) == m.(subLevel := if s.subLevel != 0 then w.level else 0)
  {
    hide ApplyAll, ApplyField;
    ApplyOne(m, s.subLevel != 0, "r", w);
    ApplyLetter(m, 'r', "", w);
  }

  // ----- the round trip -----

  /** Settings that can be written down and read back: the lists in use have plain names, the numbers fit an int, and
      the output file can be opened. */
  predicate Explainable(s: Control, w: World) {
    && (s.debugOn ==> AllPlain(s.keywords)) && AllPlain(s.functions) && AllPlain(s.processes) && GoodSink(s.sink, w)
    && s.delay < INT_LIMIT && (s.traceOn ==> 0 < s.maxDepth < INT_LIMIT) && s.marks <= MARKS
    && (s.subLevel != 0 ==> w.level != 0)
  }

  /** What comes back: the settings, but for what is not in use, what reading back makes of lists, and the level. */
  function Reread(s: Control, w: World): Control {
    Control(s.debugOn, if s.debugOn then ReadBack(s.keywords) else [], ReadBack(s.functions), ReadBack(s.processes),
            s.marks, if s.sink.output == Stderr then START.sink else s.sink, s.delay, s.traceOn,
            if s.traceOn then s.maxDepth else 0, if s.subLevel != 0 then w.level else 0)
  }

  lemma ReadBackFront(s: Control, rest: seq<string>, w: World) returns (m: Control)
    requires Explainable(s, w)
    ensures m == START.(debugOn := s.debugOn, keywords := if s.debugOn then ReadBack(s.keywords) else [],
                        delay := s.delay, functions := ReadBack(s.functions))
    ensures ApplyAll(START, ListFields(s.debugOn, 'd', s.keywords)
                     + (Field(s.delay != 0, "D," + Digits(s.delay))
                     + (ListFields(s.functions != [], 'f', s.functions) + rest)), w) == ApplyAll(m, rest, w)
  {
    hide ApplyAll, ListFields, Field, Digits, AllPlain, GoodSink, ReadBack;
    var f1, f2, f3 := ListFields(s.debugOn, 'd', s.keywords), Field(s.delay != 0, "D," + Digits(s.delay)),
                      ListFields(s.functions != [], 'f', s.functions);
    KeywordsReadBack(START, s, w);
    var m1 := START.(debugOn := s.debugOn, keywords := if s.debugOn then ReadBack(s.keywords) else []);
    ApplyBoth(START, f1, f2 + (f3 + rest), w);
    DelayReadBack(m1, s, w);
    var m2 := m1.(delay := s.delay);
    ApplyBoth(m1, f2, f3 + rest, w);
    FunctionsReadBack(m2, s, w);
    m := m2.(functions := ReadBack(s.functions));
    ApplyBoth(m2, f3, rest, w);
  }

  lemma ReadBackMiddle(m: Control, s: Control, rest: seq<string>, w: World) returns (m': Control)
    requires Explainable(s, w) && m.marks == {} && m.sink == START.sink && m.processes == []
    ensures m' == m.(marks := s.marks * {'F', 'i', 'L', 'n', 'N', 'P'}, processes := ReadBack(s.processes),
                     sink := if s.sink.output == Stderr then START.sink else s.sink)
    ensures ApplyAll(m, MarkFields(s.marks, "FiLnN")
                     + (Field(s.sink.output != Stderr, SinkText(s.sink))
                     + (ListFields(s.processes != [], 'p', s.processes) + (MarkFields(s.marks, "P") + rest))), w)
            == ApplyAll(m', rest, w)
  {
    hide ApplyAll, ListFields, Field, AllPlain, GoodSink, ReadBack, MarkFields, SinkText;
    var f1, f2, f3, f4 := MarkFields(s.marks, "FiLnN"), Field(s.sink.output != Stderr, SinkText(s.sink)),
                          ListFields(s.processes != [], 'p', s.processes), MarkFields(s.marks, "P");
    ApplyBoth(m, f1, f2 + (f3 + (f4 + rest)), w);
    ApplyMarks(m, s.marks, "FiLnN", w);
    var m1 := m.(marks := set c | c in "FiLnN" && c in s.marks);
    assert m.marks + m1.marks == m1.marks;
    ApplyBoth(m1, f2, f3 + (f4 + rest), w);
    SinkReadBack(m1, s.sink, w);
    var m2 := m1.(sink := if s.sink.output == Stderr then START.sink else s.sink);
    ApplyBoth(m2, f3, f4 + rest, w);
    ProcessesReadBack(m2, s, w);
    var m3 := m2.(processes := ReadBack(s.processes));
    ApplyBoth(m3, f4, rest, w);
    ApplyMarks(m3, s.marks, "P", w);
    m' := m3.(marks := s.marks * {'F', 'i', 'L', 'n', 'N', 'P'});
    assert m'.marks == m3.marks + set c | c in "P" && c in s.marks;
  }

  lemma ReadBackBack(m: Control, s: Control, w: World) returns (m': Control)
    requires Explainable(s, w) && m.subLevel == 0 && m.maxDepth == 0 && !m.traceOn
    ensures m' == m.(marks := m.marks + s.marks * {'T', 'S'}, subLevel := if s.subLevel != 0 then w.level else 0,
                     traceOn := s.traceOn, maxDepth := if s.traceOn then s.maxDepth else 0)
    ensures ApplyAll(m, Field(s.subLevel != 0, "r")
                     + (Field(s.traceOn, DepthText(s.maxDepth)) + MarkFields(s.marks, "TS")), w) == m'
  {
    hide ApplyAll, Field, AllPlain, GoodSink, MarkFields, DepthText;
    var f1, f2, f3 := Field(s.subLevel != 0, "r"), Field(s.traceOn, DepthText(s.maxDepth)), MarkFields(s.marks, "TS");
    ApplyBoth(m, f1, f2 + f3, w);
    LevelReadBack(m, s, w);
    var m1 := m.(subLevel := if s.subLevel != 0 then w.level else 0);
    ApplyBoth(m1, f2, f3, w);
    DepthReadBack(m1, s, w);
    var m2 := if s.traceOn then m1.(traceOn := true, maxDepth := s.maxDepth) else m1;
    ApplyMarks(m2, s.marks, "TS", w);
    m' := m2.(marks := m.marks + s.marks * {'T', 'S'});
    assert m'.marks == m2.marks + set c | c in "TS" && c in s.marks;
  }

  lemma FieldsReadBack(s: Control, w: World)
    requires Explainable(s, w)
    ensures ApplyAll(START, Fields(s), w) == Reread(s, w)
  {
    hide ApplyAll, ListFields, Field, AllPlain, GoodSink, ReadBack, MarkFields, SinkText, DepthText, Digits;
    var back := Field(s.subLevel != 0, "r") + (Field(s.traceOn, DepthText(s.maxDepth)) + MarkFields(s.marks, "TS"));
    var middle := MarkFields(s.marks, "FiLnN") + (Field(s.sink.output != Stderr, SinkText(s.sink))
                  + (ListFields(s.processes != [], 'p', s.processes) + (MarkFields(s.marks, "P") + back)));
    var m1 := ReadBackFront(s, middle, w);
    var m2 := ReadBackMiddle(m1, s, back, w);
    var m3 := ReadBackBack(m2, s, w);
    assert s.marks == s.marks * {'F', 'i', 'L', 'n', 'N', 'P'} + s.marks * {'T', 'S'};
  }

  // ----- everything that is written down can stand between separators -----

  lemma {:induction false} WordsSolid(links: seq<Link>)
    requires AllPlain(links)
    ensures NoBreak(Words(links))
  {
    if links == [] {
      NoColons(Words(links));
    } else {
      WordsSolid(links[1..]);
      var word := Word(links[0]);
      assert Plain(links[0]) && NoBreak(word);
      if |links| > 1 {
        NoColons(",");
        hide NoBreak;
        NoBreakBoth(word, ",");
        NoBreakBoth(word + ",", Words(links[1..]));
        assert Words(links) == word + "," + Words(links[1..]);
      } else {
        assert Words(links) == word;
      }
    }
  }

  lemma NoBreakBoth(a: string, b: string)
    requires NoBreak(a) && NoBreak(b)
    ensures NoBreak(a + b)
  {
    EndOfBoth(a, b);
  }

  lemma {:induction false} NoColons(t: string)
    requires forall i :: 0 <= i < |t| ==> t[i] != ':'
    ensures NoBreak(t)
  {
    if t != "" {
      NoColons(t[1..]);
    }
  }

  predicate AllSolid(fields: seq<string>) {
    forall i :: 0 <= i < |fields| ==> Solid(fields[i])
  }

  lemma ListSolid(b: bool, c: char, list: seq<Link>)
    requires (b ==> AllPlain(list)) && (c == 'd' || c == 'f' || c == 'p')
    ensures AllSolid(ListFields(b, c, list))
  {
    hide AllPlain, Words, Select, ListText;
    if b {
      PlainSelected(list, false);
      PlainSelected(list, true);
      WordsSolid(Select(list, false));
      WordsSolid(Select(list, true));
      TextIsWords(list, false);
      TextIsWords(list, true);
      NoColons(",");
      NoColons([c]);
      NoColons(['-', c]);
      hide NoBreak;
      NoBreakBoth(",", Words(Select(list, false)));
      NoBreakBoth(",", Words(Select(list, true)));
      NoBreakBoth([c], ListText(list, false));
      NoBreakBoth(['-', c], ListText(list, true));
    }
  }

  lemma {:induction false} MarksSolid(marks: set<char>, letters: string)
    requires forall c :: c in letters ==> c in MARKS
    ensures AllSolid(MarkFields(marks, letters))
  {
    if letters != "" {
      assert letters[0] in letters && letters[0] in MARKS;
      MarksSolid(marks, letters[1..]);
    }
  }

  lemma TextSolid(c: char, args: string)
    requires IsLetter(c) && NoBreak(args)
    ensures Solid([c] + args) && Solid([c] + ("," + args))
  {
    NoColons([c]);
    NoColons(",");
    hide NoBreak;
    NoBreakBoth([c], args);
    NoBreakBoth(",", args);
    NoBreakBoth([c], "," + args);
  }

  predicate IsLetter(c: char) {
    c != ':' && c != '\\' && c != '/'
  }

  lemma FieldSolid(b: bool, field: string)
    requires b ==> Solid(field)
    ensures AllSolid(Field(b, field))
  {
  }

  lemma SolidBoth(a: seq<string>, b: seq<string>)
    requires AllSolid(a) && AllSolid(b)
    ensures AllSolid(a + b)
  {
  }

  lemma FieldsSolid(s: Control, w: World)
    requires Explainable(s, w)
    ensures AllSolid(Fields(s))
  {
    hide AllSolid, MarkFields, ListFields, Field, Solid, Digits, NoClash, AllPlain, GoodSink, SinkText, DepthText;
    ListSolid(s.debugOn, 'd', s.keywords);
    ListSolid(s.functions != [], 'f', s.functions);
    ListSolid(s.processes != [], 'p', s.processes);
    MarksSolid(s.marks, "FiLnN");
    MarksSolid(s.marks, "P");
    MarksSolid(s.marks, "TS");
    var f1, f2, f3, f4 := SinglesSolid(s, w);
    var l1, l2, l3 := ListFields(s.debugOn, 'd', s.keywords), ListFields(s.functions != [], 'f', s.functions),
                      ListFields(s.processes != [], 'p', s.processes);
    var r1 := MarkFields(s.marks, "TS");
    SolidBoth(f4, r1);
    SolidBoth(f3, f4 + r1);
    var r2 := f3 + (f4 + r1);
    SolidBoth(MarkFields(s.marks, "P"), r2);
    var r3 := MarkFields(s.marks, "P") + r2;
    SolidBoth(l3, r3);
    SolidBoth(f2, l3 + r3);
    var r4 := f2 + (l3 + r3);
    SolidBoth(MarkFields(s.marks, "FiLnN"), r4);
    var r5 := MarkFields(s.marks, "FiLnN") + r4;
    SolidBoth(l2, r5);
    SolidBoth(f1, l2 + r5);
    SolidBoth(l1, f1 + (l2 + r5));
  }

  lemma SinglesSolid(s: Control, w: World)
    returns (f1: seq<string>, f2: seq<string>, f3: seq<string>, f4: seq<string>)
    requires Explainable(s, w)
    ensures f1 == Field(s.delay != 0, "D," + Digits(s.delay)) && f2 == Field(s.sink.output != Stderr, SinkText(s.sink))
    ensures f3 == Field(s.subLevel != 0, "r") && f4 == Field(s.traceOn, DepthText(s.maxDepth))
    ensures AllSolid(f1) && AllSolid(f2) && AllSolid(f3) && AllSolid(f4)
  {
    hide AllSolid, Field, Solid, Digits, AllPlain, GoodSink, SinkText, DepthText, NoBreak;
    f1, f2 := Field(s.delay != 0, "D," + Digits(s.delay)), Field(s.sink.output != Stderr, SinkText(s.sink));
    f3, f4 := Field(s.subLevel != 0, "r"), Field(s.traceOn, DepthText(s.maxDepth));
    DelaySolid(s.delay);
    FieldSolid(s.delay != 0, "D," + Digits(s.delay));
    assert Solid("r") by {
      NoBreakEmpty();
      TextSolid('r', "");
      assert "r" == ['r'] + "";
    }
    FieldSolid(s.subLevel != 0, "r");
    DepthSolid(s.maxDepth);
    FieldSolid(s.traceOn, DepthText(s.maxDepth));
    if s.sink.output != Stderr {
      SinkSolid(s.sink, w);
    }
    FieldSolid(s.sink.output != Stderr, SinkText(s.sink));
  }

  lemma NoBreakEmpty()
    ensures NoBreak("")
  {
  }

  lemma DelaySolid(delay: nat)
    ensures Solid("D," + Digits(delay))
  {
    hide Digits;
    NumberOfDigits(delay);
    NoColons(Digits(delay));
    TextSolid('D', Digits(delay));
    assert "D," + Digits(delay) == ['D'] + ("," + Digits(delay));
  }

  lemma DepthSolid(depth: nat)
    ensures Solid(DepthText(depth))
  {
    hide Digits;
    NumberOfDigits(depth);
    NoColons(Digits(depth));
    TextSolid('t', "");
    assert "t" == ['t'] + "";
    TextSolid('t', Digits(depth));
    assert depth != MAXDEPTH ==> DepthText(depth) == ['t'] + ("," + Digits(depth));
  }

  lemma SinkSolid(k: Sink, w: World)
    requires GoodSink(k, w) && k.output != Stderr
    ensures Solid(SinkText(k))
  {
    var c := SinkText(k)[0];
    TextSolid(c, k.name);
    assert k.name == "" ==> SinkText(k) == [c] + k.name;
    assert k.name != "" ==> SinkText(k) == [c] + ("," + k.name);
  }

  /** Parsing what explaining gives yields the settings again. */
  lemma ParseExplained(s: Control, w: World)
    requires Explainable(s, w)
    ensures Parse(START, Explain(s), w) == Reread(s, w)
  {
    hide Parse, Join, Fields, ApplyAll, Explainable;
    FieldsSolid(s, w);
    ParseJoined(START, Fields(s), w);
    FieldsReadBack(s, w);
  }

  lemma SelectFirst(l: Link, rest: seq<Link>, del: bool)
    ensures Select([l] + rest, del) == (if Chosen(l, del) then [Only(l, del)] else []) + Select(rest, del)
  {
    assert ([l] + rest)[1..] == rest;
  }

  lemma {:induction false} SelectAgain(list: seq<Link>, del: bool)
    ensures Select(Select(list, del), del) == Select(list, del) && Select(Select(list, del), !del) == []
  {
    if list != [] {
      var l, rest := list[0], Select(list[1..], del);
      SelectAgain(list[1..], del);
      assert list == [l] + list[1..];
      hide Select;
      SelectFirst(l, list[1..], del);
      SelectFirst(Only(l, del), rest, del);
      SelectFirst(Only(l, del), rest, !del);
      assert [] + rest == rest;
    }
  }

  lemma {:induction false} SelectBoth(a: seq<Link>, b: seq<Link>, del: bool)
    ensures Select(a + b, del) == Select(a, del) + Select(b, del)
  {
    hide Select;
    if a == [] {
      NothingSelected(del);
      assert a + b == b && [] + Select(b, del) == Select(b, del);
    } else {
      SelectBoth(a[1..], b, del);
      assert a == [a[0]] + a[1..];
      assert a + b == [a[0]] + (a[1..] + b);
      SelectFirst(a[0], a[1..], del);
      SelectFirst(a[0], a[1..] + b, del);
    }
  }

  /** Writing a list down once more changes nothing. */
  lemma PrintedAgain(list: seq<Link>, b: bool, c: char)
    requires AllPlain(list)
    ensures ListFields(b, c, Printed(list)) == ListFields(b, c, list)
    ensures Printed(list) == [] <==> list == []
  {
    hide Select, ListText;
    var yes, no := Select(list, false), Select(list, true);
    SelectAgain(list, false);
    SelectAgain(list, true);
    SelectBoth(yes, no, false);
    SelectBoth(yes, no, true);
    assert yes + [] == yes && [] + no == no;
    TextIsWords(list, false);
    TextIsWords(list, true);
    TextIsWords(Printed(list), false);
    TextIsWords(Printed(list), true);
    SelectEmpty(list);
    SelectEmpty(Printed(list));
    NothingSelected(false);
    NothingSelected(true);
    if list != [] {
      SelectsFirst(list);
    }
  }

  lemma SelectsFirst(list: seq<Link>)
    requires AllPlain(list) && list != []
    ensures Select(list, false) != [] || Select(list, true) != []
  {
    hide NoBreak;
    assert Plain(list[0]);
  }

  // ----- commas -----

  function Commas(t: string): nat {
    if t == "" then 0 else (if t[0] == ',' then 1 else 0) + Commas(t[1..])
  }

  lemma {:induction false} CommasOfBoth(a: string, b: string)
    ensures Commas(a + b) == Commas(a) + Commas(b)
  {
    if a == "" {
      assert a + b == b;
    } else {
      CommasOfBoth(a[1..], b);
      assert (a + b)[1..] == a[1..] + b;
    }
  }

  predicate CommaFree(t: string) {
    forall i :: 0 <= i < |t| ==> t[i] != ','
  }

  lemma {:induction false} NoCommas(t: string)
    requires CommaFree(t)
    ensures Commas(t) == 0
  {
    if t != "" {
      NoCommas(t[1..]);
    }
  }

  /** Names without commas. */
  predicate NoComma(list: seq<Link>) {
    forall i :: 0 <= i < |list| ==> CommaFree(list[i].name)
  }

  /** Names without commas, each to be included or excluded but not both. */
  predicate Tidy(list: seq<Link>) {
    forall i :: 0 <= i < |list| ==> CommaFree(list[i].name) && list[i].included != list[i].excluded
  }

  lemma LinkCommas(l: Link)
    requires CommaFree(l.name)
    ensures Commas(LinkText(l)) == 1
  {
    var tail := if l.subdir then "/" else "";
    NoCommas(l.name);
    CommasOfBoth(",", l.name);
    CommasOfBoth("," + l.name, tail);
    assert Commas(",") == 1 + Commas("") && ","[1..] == "";
    NoCommas(tail);
  }

  /** As many commas as links that are written down. */
  lemma {:induction false} ListCommas(list: seq<Link>, del: bool)
    requires NoComma(list)
    ensures Commas(ListText(list, del)) == |Select(list, del)|
  {
    hide LinkText, CommaFree;
    if list != [] {
      ListCommas(list[1..], del);
      LinkCommas(list[0]);
      CommasOfBoth(LinkText(list[0]), ListText(list[1..], del));
      assert "" + ListText(list[1..], del) == ListText(list[1..], del);
    }
  }

  lemma {:induction false} TidySize(list: seq<Link>)
    requires Tidy(list)
    ensures |Printed(list)| == |list| && NoComma(list)
  {
    if list != [] {
      TidySize(list[1..]);
    }
  }

  function CommasIn(fields: seq<string>): nat {
    if fields == [] then 0 else Commas(fields[0]) + CommasIn(fields[1..])
  }

  lemma {:induction false} CommasInBoth(a: seq<string>, b: seq<string>)
    ensures CommasIn(a + b) == CommasIn(a) + CommasIn(b)
  {
    if a == [] {
      assert a + b == b;
    } else {
      CommasInBoth(a[1..], b);
      assert (a + b)[1..] == a[1..] + b;
    }
  }

  lemma {:induction false} JoinCommas(fields: seq<string>)
    ensures Commas(Join(fields)) == CommasIn(fields)
  {
    hide Commas;
    if |fields| == 1 {
      assert fields[1..] == [];
    } else if |fields| > 1 {
      JoinCommas(fields[1..]);
      CommasOfBoth(fields[0] + ":", Join(fields[1..]));
      CommasOfBoth(fields[0], ":");
      NoCommas(":");
    } else {
      NoCommas("");
    }
  }

  lemma OneField(b: bool, field: string)
    ensures CommasIn(Field(b, field)) == if b then Commas(field) else 0
  {
    if b {
      assert Field(b, field)[1..] == [];
    }
  }

  lemma FieldCommas(b: bool, c: char, list: seq<Link>)
    requires NoComma(list) && c != ','
    ensures CommasIn(ListFields(b, c, list)) == if b then |Printed(list)| else 0
  {
    hide Commas, CommasIn, Select, ListText, Field, NoComma;
    var plus, minus := [c] + ListText(list, false), ['-', c] + ListText(list, true);
    CommasInBoth(Field(b, plus), Field(b && HasExcluded(list), minus));
    OneField(b, plus);
    OneField(b && HasExcluded(list), minus);
    CommasOfBoth([c], ListText(list, false));
    CommasOfBoth(['-', c], ListText(list, true));
    NoCommas([c]);
    NoCommas(['-', c]);
    ListCommas(list, false);
    ListCommas(list, true);
    SelectEmpty(list);
  }

  /** A name that starts one already there does not make the list longer. */
  lemma {:induction false} AddNameKeeps(list: seq<Link>, name: string, subdir: bool, del: bool)
    requires Tidy(list) && CommaFree(name) && (!del ==> forall i :: 0 <= i < |list| ==> list[i].included)
    ensures var r := AddName(list, name, subdir, del);
      && Tidy(r) && |r| <= |list| + 1 && (!del ==> forall i :: 0 <= i < |r| ==> r[i].included)
      && ((exists i :: 0 <= i < |list| && name <= list[i].name) ==> |r| <= |list|)
  {
    if list != [] && !(name <= list[0].name) {
      AddNameKeeps(list[1..], name, subdir, del);
      if i :| 0 <= i < |list| && name <= list[i].name {
        assert list[1..][i - 1] == list[i];
      }
    }
  }

  lemma AddPlainKeeps(list: seq<Link>, l: Link, del: bool)
    requires Tidy(list) && Plain(l) && (!del ==> forall i :: 0 <= i < |list| ==> list[i].included)
    ensures var r := AddWord(list, Word(l), del);
      && Tidy(r) && |r| <= |list| + 1 && (!del ==> forall i :: 0 <= i < |r| ==> r[i].included)
      && ((exists i :: 0 <= i < |list| && l.name <= list[i].name) ==> |r| <= |list|)
  {
    hide NoBreak, AddName;
    if l.subdir {
      assert Word(l)[..|l.name|] == l.name;
    } else {
      assert Word(l) == l.name;
    }
    AddNameKeeps(list, l.name, l.subdir, del);
  }

  /** Adding `links` to `acc` gives a list that is shorter than both together if there is a clash. */
  lemma {:induction false} AddsLess(acc: seq<Link>, all: seq<Link>, links: seq<Link>, del: bool)
    requires Tidy(acc) && AllPlain(links) && (!del ==> forall i :: 0 <= i < |acc| ==> acc[i].included)
    requires AllOnly(links, del) && (|acc| < |all| || acc == all)
    ensures var r := AddWords(acc, Words(links), del);
      && Tidy(r) && |r| <= |all| + |links| && (!del ==> forall i :: 0 <= i < |r| ==> r[i].included)
      && (|r| == |all| + |links| ==> acc == all && (NoClash(all) ==> NoClash(all + links)))
    decreases |links|
  {
    hide AddWords, Words, NoClash, Plain, AddWord;
    if links == [] {
      NoWords(acc, del);
      assert all + links == all;
    } else {
      var l := links[0];
      var acc' := AddWord(acc, Word(l), del);
      FirstWord(links, acc, del);
      AddPlainKeeps(acc, l, del);
      if acc == all && !(exists i :: 0 <= i < |acc| && l.name <= acc[i].name) {
        assert l == Only(l, del);
        AddPlain(acc, l, del);
        if NoClash(all) {
          NoClashOneMore(all, l);
        }
      }
      AddsLess(acc', all + [l], links[1..], del);
      assert all + links == all + [l] + links[1..];
    }
  }

  lemma NoClashOneMore(list: seq<Link>, l: Link)
    requires NoClash(list) && forall i :: 0 <= i < |list| ==> !(l.name <= list[i].name)
    ensures NoClash(list + [l])
  {
  }

  // ----- which settings come back -----

  /** Reading a list of plain names back keeps the links that are written down if none of their names is a prefix of
      one written before it, and loses some otherwise. So exactly in the first case it is written down as before. */
  lemma NamesComeBack(list: seq<Link>, c: char)
    requires AllPlain(list) && c != ','
    ensures Tidy(ReadBack(list))
    ensures if NoClash(Printed(list)) then ReadBack(list) == Printed(list) else |ReadBack(list)| < |Printed(list)|
    ensures ListFields(true, c, ReadBack(list)) == ListFields(true, c, list) <==> NoClash(Printed(list))
  {
    hide AddWords, Words, Select, NoClash, ListText, AllPlain, ListFields, Tidy;
    var yes, no := Select(list, false), Select(list, true);
    PlainSelected(list, false);
    PlainSelected(list, true);
    NoClashEmpty();
    assert [] + yes == yes && [] + [] + yes == yes;
    var included := AddWords([], Words(yes), false);
    AddsLess([], [], yes, false);
    if |included| == |yes| {
      AddsBack([], yes, false);
    }
    AddsLess(included, yes, no, true);
    if NoClash(Printed(list)) {
      ListReadBack(list);
      PrintedAgain(list, true, c);
    }
    PlainNames(list);
    TidySize(ReadBack(list));
    FieldCommas(true, c, list);
    FieldCommas(true, c, ReadBack(list));
  }

  lemma PlainNames(list: seq<Link>)
    requires AllPlain(list)
    ensures NoComma(list)
  {
    hide NoBreak;
    assert forall i :: 0 <= i < |list| ==> Plain(list[i]);
  }

  lemma NoClashEmpty()
    ensures NoClash([]) && Tidy([])
  {
  }

  /** No name that is written down is a prefix of one written before it in the same list. */
  predicate Unambiguous(s: Control) {
    (s.debugOn ==> NoClash(Printed(s.keywords))) && NoClash(Printed(s.functions)) && NoClash(Printed(s.processes))
  }

  /** The commas outside of lists. */
  function OtherCommas(s: Control): nat {
    CommasIn(Field(s.delay != 0, "D," + Digits(s.delay))) + CommasIn(MarkFields(s.marks, "FiLnN"))
    + CommasIn(Field(s.sink.output != Stderr, SinkText(s.sink))) + CommasIn(MarkFields(s.marks, "P"))
    + CommasIn(Field(s.subLevel != 0, "r")) + CommasIn(Field(s.traceOn, DepthText(s.maxDepth)))
    + CommasIn(MarkFields(s.marks, "TS"))
  }

  lemma ExplainCommas(s: Control)
    requires (s.debugOn ==> NoComma(s.keywords)) && NoComma(s.functions) && NoComma(s.processes)
    ensures Commas(Explain(s)) == OtherCommas(s) + (if s.debugOn then |Printed(s.keywords)| else 0)
                                  + |Printed(s.functions)| + |Printed(s.processes)|
  {
    hide Commas, CommasIn, Field, ListFields, MarkFields, SinkText, DepthText, Digits, Join, NoComma, Select;
    var l1, f1 := ListFields(s.debugOn, 'd', s.keywords), Field(s.delay != 0, "D," + Digits(s.delay));
    var l2, m1 := ListFields(s.functions != [], 'f', s.functions), MarkFields(s.marks, "FiLnN");
    var f2, l3 := Field(s.sink.output != Stderr, SinkText(s.sink)), ListFields(s.processes != [], 'p', s.processes);
    var m2, f3 := MarkFields(s.marks, "P"), Field(s.subLevel != 0, "r");
    var f4, m3 := Field(s.traceOn, DepthText(s.maxDepth)), MarkFields(s.marks, "TS");
    JoinCommas(Fields(s));
    CommasInBoth(f4, m3);
    CommasInBoth(f3, f4 + m3);
    CommasInBoth(m2, f3 + (f4 + m3));
    CommasInBoth(l3, m2 + (f3 + (f4 + m3)));
    CommasInBoth(f2, l3 + (m2 + (f3 + (f4 + m3))));
    CommasInBoth(m1, f2 + (l3 + (m2 + (f3 + (f4 + m3)))));
    CommasInBoth(l2, m1 + (f2 + (l3 + (m2 + (f3 + (f4 + m3))))));
    CommasInBoth(f1, l2 + (m1 + (f2 + (l3 + (m2 + (f3 + (f4 + m3)))))));
    CommasInBoth(l1, f1 + (l2 + (m1 + (f2 + (l3 + (m2 + (f3 + (f4 + m3))))))));
    if s.debugOn {
      FieldCommas(true, 'd', s.keywords);
    } else {
      NoFieldCommas('d', s.keywords);
    }
    FieldCommas(s.functions != [], 'f', s.functions);
    FieldCommas(s.processes != [], 'p', s.processes);
    NothingSelected(false);
    NothingSelected(true);
  }

  lemma NoFieldCommas(c: char, list: seq<Link>)
    ensures CommasIn(ListFields(false, c, list)) == 0
  {
  }

  /** Explaining, pushing the result and explaining again gives the same string if and only if no name that is written
      down is a prefix of one written before it in the same list. */
  lemma ExplainRoundTrip(s: Control, w: World)
    requires Explainable(s, w)
    ensures Explain(Parse(START, Explain(s), w)) == Explain(s) <==> Unambiguous(s)
  {
    hide Parse, Explain, ReadBack, NoClash, AllPlain, Printed;
    ParseExplained(s, w);
    if Unambiguous(s) {
      ComesBack(s, w);
    } else {
      GetsShorter(s, w);
    }
  }

  lemma ComesBack(s: Control, w: World)
    requires Explainable(s, w) && Unambiguous(s)
    ensures Explain(Reread(s, w)) == Explain(s)
  {
    hide Join, ListFields, MarkFields, SinkText, DepthText, Digits, Printed, ReadBack, NoClash, AllPlain;
    var r := Reread(s, w);
    if s.debugOn {
      NamesComeBack(s.keywords, 'd');
      PrintedAgain(s.keywords, true, 'd');
    } else {
      NoListFields('d', r.keywords, s.keywords);
    }
    NamesComeBack(s.functions, 'f');
    NamesComeBack(s.processes, 'p');
    PrintedAgain(s.functions, s.functions != [], 'f');
    PrintedAgain(s.processes, s.processes != [], 'p');
    assert Fields(r) == Fields(s);
  }

  lemma GetsShorter(s: Control, w: World)
    requires Explainable(s, w) && !Unambiguous(s)
    ensures Explain(Reread(s, w)) != Explain(s)
  {
    hide Explain, OtherCommas, ReadBack, NoClash, AllPlain, Commas, Printed, NoComma, Tidy;
    var r := Reread(s, w);
    if s.debugOn {
      NamesComeBack(s.keywords, 'd');
      PlainNames(s.keywords);
      TidySize(r.keywords);
    }
    NamesComeBack(s.functions, 'f');
    NamesComeBack(s.processes, 'p');
    PlainNames(s.functions);
    PlainNames(s.processes);
    TidySize(r.functions);
    TidySize(r.processes);
    ExplainCommas(s);
    ExplainCommas(r);
    SameOthers(s, w);
  }

  lemma SameOthers(s: Control, w: World)
    requires Explainable(s, w)
    ensures OtherCommas(Reread(s, w)) == OtherCommas(s)
  {
    hide CommasIn, MarkFields, SinkText, DepthText, Digits, ReadBack, AllPlain;
  }

  lemma NoListFields(c: char, a: seq<Link>, b: seq<Link>)
    ensures ListFields(false, c, a) == ListFields(false, c, b)
  {
  }
}
