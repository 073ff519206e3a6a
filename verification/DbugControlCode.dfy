/** The code that reads control strings and writes them into a buffer of limited size. */
module DbugControlCode {
  import opened DbugTracing
  import opened DbugControl

  // ----- reading -----

  /** The end of the field that starts at `start`. */
  method StrTok(control: string, start: nat) returns (end: nat)
    requires start <= |control|
    ensures end == start + FieldEnd(control[start..])
  {
    end := start;
    while end < |control|
      invariant start <= end <= |control| && end + FieldEnd(control[end..]) == start + FieldEnd(control[start..])
    {
      assert control[end..][1..] == control[end + 1..];
      if control[end] == ':' && !(end + 1 < |control| && (control[end + 1] == '\\' || control[end + 1] == '/')) {
        if !(end + 1 < |control| && control[end + 1] == ':') {
          return;
        }
        assert control[end..][2..] == control[end + 2..];
        end := end + 1;
      }
      end := end + 1;
    }
  }

  /** Links whose names do not start with `name` are passed over. */
  lemma {:induction false} PassedOver(list: seq<Link>, k: nat, name: string, subdir: bool, del: bool)
    requires k <= |list| && forall j :: 0 <= j < k ==> !(name <= list[j].name)
    ensures AddName(list, name, subdir, del) == list[..k] + AddName(list[k..], name, subdir, del)
    decreases k
  {
    if k > 0 {
      PassedOver(list[1..], k - 1, name, subdir, del);
      var front, rest := list[1..][..k - 1], AddName(list[k..], name, subdir, del);
      assert list[1..][k - 1..] == list[k..];
      assert list[..k] == [list[0]] + front;
      assert AddName(list, name, subdir, del) == [list[0]] + AddName(list[1..], name, subdir, del);
      hide AddName;
      assert [list[0]] + (front + rest) == ([list[0]] + front) + rest;
    } else {
      assert list[0..] == list;
    }
  }

  /** Looks for a link whose name starts with `name`, and changes it, removes it, or adds one at the end. */
  method AddOne(list: seq<Link>, name: string, subdir: bool, del: bool) returns (r: seq<Link>)
    ensures r == AddName(list, name, subdir, del)
  {
    var k := 0;
    while k < |list| && !(name <= list[k].name)
      invariant k <= |list| && forall j :: 0 <= j < k ==> !(name <= list[j].name)
    {
      k := k + 1;
    }
    PassedOver(list, k, name, subdir, del);
    var front, back := list[..k], list[k..];
    if k == |list| {
      r := front + [Link(name, !del, del, subdir)];
    } else if (del && list[k].excluded) || (!del && list[k].included) {
      r := front + ([list[k].(subdir := list[k].subdir || subdir)] + back[1..]);
    } else if del {
      r := front + back[1..];
    } else {
      r := front + ([list[k].(included := true, subdir := list[k].subdir || subdir)] + back[1..]);
    }
  }

  function From(s: string, p: nat): string {
    if p <= |s| then s[p..] else ""
  }

  method NextComma(args: string, start: nat) returns (p: nat)
    requires start < |args|
    ensures p == start + UpTo(args[start..], ',')
  {
    p := start;
    while p < |args| && args[p] != ','
      invariant start <= p <= |args| && p + UpTo(args[p..], ',') == start + UpTo(args[start..], ',')
    {
      assert args[p..][1..] == args[p + 1..];
      p := p + 1;
    }
  }

  lemma OneWord(list: seq<Link>, args: string, start: nat, p: nat, del: bool)
    requires start < |args| && p == start + UpTo(args[start..], ',')
    ensures AddWords(list, From(args, start), del) == AddWords(AddWord(list, args[start..p], del), From(args, p + 1), del)
  {
    hide AddWord, UpTo;
    assert args[start..][..p - start] == args[start..p];
    if p < |args| {
      assert args[start..][p - start + 1..] == args[p + 1..];
    }
  }

  /** Adds comma separated names to a list, to be included or to be excluded. */
  method ListAddDel(head: seq<Link>, args: string, del: bool) returns (list: seq<Link>)
    ensures list == AddWords(head, args, del)
  {
    hide UpTo, AddName, AddWords;
    list := head;
    var p := 0;
    assert From(args, 0) == args;
    while p < |args|
      invariant AddWords(list, From(args, p), del) == AddWords(head, args, del)
    {
      var start := p;
      p := NextComma(args, start);
      OneWord(list, args, start, p, del);
      var word := args[start..p];
      if word != "" && word[|word| - 1] == '/' {
        if |word| > 1 {
          list := AddOne(list, word[..|word| - 1], true, del);
        }
      } else if word != "" {
        list := AddOne(list, word, false, del);
      }
      p := p + 1;
    }
    assert From(args, p) == "";
    NothingToAdd(list, del);
  }

  lemma NothingToAdd(list: seq<Link>, del: bool)
    ensures AddWords(list, "", del) == list
  {
  }

  /** What the field from `start` to `end` does. */
  method ParseField(s: Control, control: string, start: nat, end: nat, w: World) returns (r: Control, functionsUsed: bool)
    requires start < end <= |control|
    ensures r == ApplyField(s, control[start..end], w)
    ensures functionsUsed == EditsFunctions(control[start..end])
  {
    hide AddWords;
    ghost var field := control[start..end];
    var minus := control[start] == '-';
    var p := if control[start] == '+' || control[start] == '-' then start + 1 else start;
    assert control[p..end] == Unsign(field);
    r, functionsUsed := s, false;
    if p < end {
      var c := control[p];
      p := p + 1;
      if p < end && control[p] == ',' {
        p := p + 1;
      }
      var args := control[p..end];
      if c == 'd' {
        if minus && args == "" {
          r := s.(keywords := [], debugOn := false);
        } else if minus {
          if s.debugOn {
            var list := ListAddDel(s.keywords, args, true);
            r := s.(keywords := list);
          }
        } else {
          var list := ListAddDel(s.keywords, args, false);
          r := s.(keywords := list, debugOn := true);
        }
      } else if c == 'f' {
        functionsUsed := true;
        if minus && args == "" {
          r := s.(functions := []);
        } else {
          var list := ListAddDel(s.functions, args, minus);
          r := s.(functions := list);
        }
      } else if c == 'p' {
        if minus && args == "" {
          r := s.(processes := []);
        } else {
          var list := ListAddDel(s.processes, args, minus);
          r := s.(processes := list);
        }
      } else {
        r := Apply(s, c, minus, args, w);
      }
    }
  }

  /** Reads a control string field by field, and says whether there was one for the list of functions. */
  method DbugParse(s: Control, control: string, w: World) returns (r: Control, functionsUsed: bool)
    ensures r == Parse(s, control, w) && functionsUsed == UsesFunctions(control)
  {
    hide ApplyField, FieldEnd, EditsFunctions;
    r, functionsUsed := s, false;
    var start := 0;
    var end := StrTok(control, start);
    assert control[0..] == control;
    while start < end
      invariant start <= end <= |control| && end == start + FieldEnd(control[start..])
      invariant Parse(r, control[start..], w) == Parse(s, control, w)
      invariant functionsUsed || UsesFunctions(control[start..]) <==> UsesFunctions(control)
      decreases |control| - start
    {
      assert control[start..][..end - start] == control[start..end];
      var used;
      r, used := ParseField(r, control, start, end, w);
      functionsUsed := functionsUsed || used;
      if end == |control| {
        return;
      }
      assert control[start..][end - start + 1..] == control[end + 1..];
      start := end + 1;
      end := StrTok(control, start);
    }
  }

  // ----- writing -----

  function Cut(t: string, limit: nat): string {
    if |t| <= limit then t else t[..limit]
  }

  /** Writes `t` as far as it fits; `full` is what has been asked for so far. */
  method Emit(buf: string, t: string, limit: nat, ghost full: string) returns (buf': string)
    requires buf == Cut(full, limit)
    ensures buf' == Cut(full + t, limit)
  {
    buf' := buf;
    var i := 0;
    assert full + t[..0] == full;
    while i < |t| && |buf'| < limit
      invariant i <= |t| && buf' == Cut(full + t[..i], limit)
    {
      assert full + t[..i + 1] == full + t[..i] + [t[i]];
      buf' := buf' + [t[i]];
      i := i + 1;
    }
    assert full + t == full + t[..i] + t[i..];
  }

  lemma {:induction false} JoinOneMore(fields: seq<string>, field: string)
    ensures Join(fields + [field]) == if fields == [] then field else Join(fields) + (":" + field)
  {
    if |fields| == 0 {
      assert fields + [field] == [field];
    } else {
      JoinOneMore(fields[1..], field);
      assert (fields + [field])[1..] == fields[1..] + [field];
    }
  }

  predicate NoneEmpty(fields: seq<string>) {
    forall i :: 0 <= i < |fields| ==> fields[i] != ""
  }

  lemma JoinEmpty(fields: seq<string>)
    requires NoneEmpty(fields)
    ensures Join(fields) == "" <==> fields == []
  {
  }

  /** Writes a field after a colon, unless it is the first. */
  method EmitField(buf: string, b: bool, field: string, limit: nat, ghost fields: seq<string>) returns (buf': string)
    requires limit > 0 && NoneEmpty(fields) && field != "" && buf == Cut(Join(fields), limit)
    ensures NoneEmpty(fields + Field(b, field)) && buf' == Cut(Join(fields + Field(b, field)), limit)
  {
    hide Join;
    buf' := buf;
    JoinEmpty(fields);
    if b {
      JoinOneMore(fields, field);
      ghost var full := Join(fields);
      if buf != "" {
        buf' := Emit(buf', ":", limit, full);
        buf' := Emit(buf', field, limit, full + ":");
        assert full + ":" + field == full + (":" + field);
      } else {
        buf' := Emit(buf', field, limit, full);
        assert full + field == field;
      }
    } else {
      assert fields + Field(b, field) == fields;
    }
  }

  lemma NextLink(list: seq<Link>, k: nat, del: bool, t: string)
    requires k < |list|
    ensures t + ListText(list[k..], del) ==
            (if Chosen(list[k], del) then t + LinkText(list[k]) else t) + ListText(list[k + 1..], del)
  {
    hide LinkText;
    var head, rest := if Chosen(list[k], del) then LinkText(list[k]) else "", ListText(list[k + 1..], del);
    assert list[k..][1..] == list[k + 1..];
    assert ListText(list[k..], del) == head + rest;
    assert t + (head + rest) == (t + head) + rest;
    assert t + "" == t;
  }

  /** The text of the included or of the excluded names. */
  method NamesText(list: seq<Link>, del: bool) returns (t: string, any: bool)
    ensures t == ListText(list, del) && any == exists i :: 0 <= i < |list| && Chosen(list[i], del)
  {
    hide ListText, LinkText;
    t, any := "", false;
    var k := 0;
    assert list[0..] == list && "" + ListText(list, del) == ListText(list, del);
    while k < |list|
      invariant 0 <= k <= |list| && t + ListText(list[k..], del) == ListText(list, del)
      invariant any == exists i :: 0 <= i < k && Chosen(list[i], del)
    {
      NextLink(list, k, del, t);
      if Chosen(list[k], del) {
        t, any := t + LinkText(list[k]), true;
      }
      k := k + 1;
    }
    assert list[k..] == [];
    NoText(t, del);
  }

  lemma NoText(t: string, del: bool)
    ensures t + ListText([], del) == t
  {
  }

  method EmitList(buf: string, b: bool, c: char, list: seq<Link>, limit: nat, ghost fields: seq<string>)
    returns (buf': string)
    requires limit > 0 && NoneEmpty(fields) && buf == Cut(Join(fields), limit)
    ensures NoneEmpty(fields + ListFields(b, c, list)) && buf' == Cut(Join(fields + ListFields(b, c, list)), limit)
  {
    hide Join, ListText, Field;
    var included, _ := NamesText(list, false);
    var excluded, some := NamesText(list, true);
    ghost var f1, f2 := Field(b, [c] + included), Field(b && some, ['-', c] + excluded);
    buf' := EmitField(buf, b, [c] + included, limit, fields);
    buf' := EmitField(buf', b && some, ['-', c] + excluded, limit, fields + f1);
    assert fields + f1 + f2 == fields + (f1 + f2);
  }

  method EmitMarks(buf: string, marks: set<char>, letters: string, limit: nat, ghost fields: seq<string>)
    returns (buf': string)
    requires limit > 0 && NoneEmpty(fields) && buf == Cut(Join(fields), limit)
    ensures NoneEmpty(fields + MarkFields(marks, letters))
    ensures buf' == Cut(Join(fields + MarkFields(marks, letters)), limit)
    decreases |letters|
  {
    hide Join, Field;
    if letters == "" {
      assert fields + MarkFields(marks, letters) == fields;
      return buf;
    }
    ghost var first := Field(letters[0] in marks, [letters[0]]);
    buf' := EmitField(buf, letters[0] in marks, [letters[0]], limit, fields);
    buf' := EmitMarks(buf', marks, letters[1..], limit, fields + first);
    assert fields + first + MarkFields(marks, letters[1..]) == fields + (first + MarkFields(marks, letters[1..]));
  }

  /** The fields as they are written, in this order. */
  method EmitAll(s: Control, limit: nat) returns (buf: string)
    requires limit > 0
    ensures buf == Cut(Explain(s), limit)
  {
    hide Join, ListFields, MarkFields, Field, Digits, SinkText, DepthText, NoneEmpty, Cut;
    ghost var f: seq<string> := [];
    buf := "";
    NothingYet(limit);
    buf := EmitList(buf, s.debugOn, 'd', s.keywords, limit, f);
    f := f + ListFields(s.debugOn, 'd', s.keywords);
    buf := EmitField(buf, s.delay != 0, "D," + Digits(s.delay), limit, f);
    f := f + Field(s.delay != 0, "D," + Digits(s.delay));
    buf := EmitList(buf, s.functions != [], 'f', s.functions, limit, f);
    f := f + ListFields(s.functions != [], 'f', s.functions);
    buf := EmitMarks(buf, s.marks, "FiLnN", limit, f);
    f := f + MarkFields(s.marks, "FiLnN");
    SomeText(s);
    buf := EmitField(buf, s.sink.output != Stderr, SinkText(s.sink), limit, f);
    f := f + Field(s.sink.output != Stderr, SinkText(s.sink));
    buf := EmitList(buf, s.processes != [], 'p', s.processes, limit, f);
    f := f + ListFields(s.processes != [], 'p', s.processes);
    buf := EmitMarks(buf, s.marks, "P", limit, f);
    f := f + MarkFields(s.marks, "P");
    buf := EmitField(buf, s.subLevel != 0, "r", limit, f);
    f := f + Field(s.subLevel != 0, "r");
    buf := EmitField(buf, s.traceOn, DepthText(s.maxDepth), limit, f);
    f := f + Field(s.traceOn, DepthText(s.maxDepth));
    buf := EmitMarks(buf, s.marks, "TS", limit, f);
    Regroup(ListFields(s.debugOn, 'd', s.keywords), Field(s.delay != 0, "D," + Digits(s.delay)),
            ListFields(s.functions != [], 'f', s.functions), MarkFields(s.marks, "FiLnN"),
            Field(s.sink.output != Stderr, SinkText(s.sink)), ListFields(s.processes != [], 'p', s.processes),
            MarkFields(s.marks, "P"), Field(s.subLevel != 0, "r"), Field(s.traceOn, DepthText(s.maxDepth)),
            MarkFields(s.marks, "TS"));
  }

  /** Writes the settings as a control string into a buffer of `len` characters; if they do not fit, as many as do
      and three dots. */
  method DbExplain(s: Control, len: nat) returns (text: string, truncated: bool)
    requires len > 4
    ensures truncated <==> |Explain(s)| >= len - 4
    ensures text == if truncated then Explain(s)[..len - 4] + "..." else Explain(s)
  {
    hide Join;
    var buf := EmitAll(s, len - 4);
    truncated := |buf| >= len - 4;
    text := if truncated then buf + "..." else buf;
  }

  lemma NothingYet(limit: nat)
    ensures "" == Cut(Join([]), limit) && NoneEmpty([])
  {
  }

  lemma Assoc(a: seq<string>, b: seq<string>, c: seq<string>)
    ensures a + b + c == a + (b + c)
  {
  }

  lemma Regroup(a: seq<string>, b: seq<string>, c: seq<string>, d: seq<string>, e: seq<string>, f: seq<string>,
                g: seq<string>, h: seq<string>, i: seq<string>, j: seq<string>)
    ensures [] + a + b + c + d + e + f + g + h + i + j == a + (b + (c + (d + (e + (f + (g + (h + (i + j))))))))
  {
    assert [] + a == a;
    Assoc(a + b + c + d + e + f + g + h, i, j);
    Assoc(a + b + c + d + e + f + g, h, i + j);
    Assoc(a + b + c + d + e + f, g, h + (i + j));
    Assoc(a + b + c + d + e, f, g + (h + (i + j)));
    Assoc(a + b + c + d, e, f + (g + (h + (i + j))));
    Assoc(a + b + c, d, e + (f + (g + (h + (i + j)))));
    Assoc(a + b, c, d + (e + (f + (g + (h + (i + j))))));
    Assoc(a, b, c + (d + (e + (f + (g + (h + (i + j)))))));
  }

  lemma SomeText(s: Control)
    ensures SinkText(s.sink) != "" && DepthText(s.maxDepth) != ""
  {
  }

  /** What holds of all settings that come from control strings: tracing is on exactly when there is a depth to
      trace to, and standard output is flushed. */
  predicate Sane(s: Control) {
    (s.traceOn <==> s.maxDepth > 0) && (s.sink.output == Stdout ==> s.sink.flush) && s.marks <= MARKS
  }

  lemma {:induction false} ParseKeepsSane(s: Control, control: string, w: World)
    requires Sane(s)
    ensures Sane(START) && Sane(Parse(s, control, w))
    decreases |control|
  {
    hide Apply;
    var n := FieldEnd(control);
    if n > 0 {
      var f := Unsign(control[..n]);
      if f != "" {
        ApplyKeepsSane(s, f[0], control[0] == '-', if |f| > 1 && f[1] == ',' then f[2..] else f[1..], w);
      }
      if n < |control| {
        ParseKeepsSane(ApplyField(s, control[..n], w), control[n + 1..], w);
      }
    }
  }

  lemma ApplyKeepsSane(s: Control, c: char, minus: bool, args: string, w: World)
    requires Sane(s)
    ensures Sane(Apply(s, c, minus, args, w))
  {
    hide Atoi, AddWords;
  }
}
