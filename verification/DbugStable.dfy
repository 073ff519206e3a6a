/** Which control strings lead to settings that survive being explained and pushed again. */
module DbugStable {
  import opened DbugTracing
  import opened DbugControl

  // ----- the parts of a field -----

  /** A field is what its own end says. */
  lemma {:induction false} FieldIsWhole(control: string)
    ensures NoBreak(control[..FieldEnd(control)])
    decreases |control|
  {
    var n := FieldEnd(control);
    if n > 0 {
      var step := if control[0] == ':' && control[1] == ':' then 2 else 1;
      FieldIsWhole(control[step..]);
      assert control[..n][step..] == control[step..][..n - step];
    }
  }

  /** Cutting at a comma breaks nothing. */
  lemma {:induction false} WordIsWhole(t: string)
    requires NoBreak(t)
    ensures var n := UpTo(t, ','); NoBreak(t[..n]) && (n < |t| ==> NoBreak(t[n + 1..]))
    decreases |t|
  {
    hide FieldEnd, NoBreak;
    var n := UpTo(t, ',');
    if n == 0 {
      NoBreakEmpty();
      if t != "" {
        RestIsWhole(t);
      }
      assert t[..n] == "";
    } else {
      var step := Step(t);
      StepOn(t, n);
      WordIsWhole(t[step..]);
      assert t[..n][step..] == t[step..][..n - step];
      assert n < |t| ==> t[step..][n - step + 1..] == t[n + 1..];
      hide UpTo;
      StepBack(t[..n]);
    }
  }

  /** How far looking for the end of a field goes at once. */
  function Step(t: string): nat
    requires t != ""
  {
    if t[0] == ':' && |t| > 1 && t[1] == ':' then 2 else 1
  }

  lemma StepOn(t: string, n: nat)
    requires NoBreak(t) && t != "" && n == UpTo(t, ',') > 0
    ensures Step(t) <= n && NoBreak(t[Step(t)..]) && UpTo(t[Step(t)..], ',') == n - Step(t)
    ensures t[..n] != "" && Step(t[..n]) == Step(t) && (t[0] == ':' ==> n > 1 && (t[1] == ':' || t[1] == '\\' || t[1] == '/'))
  {
    if Step(t) == 2 {
      assert t[1..][1..] == t[2..];
    }
  }

  lemma StepBack(t: string)
    requires t != "" && Step(t) <= |t| && NoBreak(t[Step(t)..])
    requires t[0] == ':' ==> |t| > 1 && (t[1] == ':' || t[1] == '\\' || t[1] == '/')
    ensures NoBreak(t)
  {
  }

  lemma {:induction false} NoCommaUpTo(t: string)
    ensures CommaFree(t[..UpTo(t, ',')])
  {
    if t != "" && t[0] != ',' {
      NoCommaUpTo(t[1..]);
      assert t[..UpTo(t, ',')] == [t[0]] + t[1..][..UpTo(t[1..], ',')];
    }
  }

  /** The letter of a field, its sign and the comma after it can be taken off. */
  lemma RestIsWhole(t: string)
    requires NoBreak(t) && t != "" && t[0] != ':'
    ensures NoBreak(t[1..])
  {
  }

  // ----- lists -----

  lemma PlainSubdir(l: Link, subdir: bool)
    requires Plain(l)
    ensures Plain(l.(subdir := l.subdir || subdir)) && Plain(l.(included := true, subdir := l.subdir || subdir))
  {
    var l' := l.(subdir := l.subdir || subdir);
    if subdir && !l.subdir {
      assert Word(l) == l.name;
      NoColons("/");
      NoBreakBoth(l.name, "/");
      assert Word(l') == l.name + "/";
    }
    assert Word(l'.(included := true)) == Word(l');
  }

  lemma {:induction false} AddNamePlain(list: seq<Link>, name: string, subdir: bool, del: bool)
    requires AllPlain(list) && Plain(Link(name, !del, del, subdir))
    ensures AllPlain(AddName(list, name, subdir, del))
  {
    hide Plain;
    if list != [] {
      assert Plain(list[0]);
      PlainSubdir(list[0], subdir);
      AddNamePlain(list[1..], name, subdir, del);
    }
  }

  lemma AddWordPlain(list: seq<Link>, word: string, del: bool)
    requires AllPlain(list) && NoBreak(word) && CommaFree(word)
    ensures AllPlain(AddWord(list, word, del))
  {
    var subdir := word != "" && word[|word| - 1] == '/';
    var name := if subdir then word[..|word| - 1] else word;
    if name != "" {
      assert Word(Link(name, !del, del, subdir)) == word;
      hide NoBreak, AllPlain;
      AddNamePlain(list, name, subdir, del);
    }
  }

  lemma {:induction false} AddWordsPlain(list: seq<Link>, args: string, del: bool)
    requires AllPlain(list) && NoBreak(args)
    ensures AllPlain(AddWords(list, args, del))
    decreases |args|
  {
    hide AllPlain, AddWord;
    if args != "" {
      var n := UpTo(args, ',');
      WordIsWhole(args);
      NoCommaUpTo(args);
      AddWordPlain(list, args[..n], del);
      if n < |args| {
        AddWordsPlain(AddWord(list, args[..n], del), args[n + 1..], del);
      }
    }
  }

  // ----- whole control strings -----

  ghost predicate PlainLists(s: Control) {
    AllPlain(s.keywords) && AllPlain(s.functions) && AllPlain(s.processes)
  }

  /** What else parsing keeps. */
  predicate InRange(s: Control, w: World) {
    (s.subLevel != 0 ==> w.level != 0) && s.marks <= MARKS && (s.traceOn ==> s.maxDepth > 0)
  }

  lemma ApplyKeepsPlain(s: Control, c: char, minus: bool, args: string, w: World)
    requires PlainLists(s) && InRange(s, w) && (c != ':' ==> NoBreak(args))
    ensures PlainLists(Apply(s, c, minus, args, w)) && InRange(Apply(s, c, minus, args, w), w)
  {
    hide AllPlain, AddWords, NoBreak, SetSink, Atoi;
    if c != ':' {
      AddWordsPlain(s.keywords, args, minus);
      AddWordsPlain(s.functions, args, minus);
      AddWordsPlain(s.processes, args, minus);
    }
    NothingPlain();
  }

  lemma NothingPlain()
    ensures AllPlain([])
  {
  }

  lemma FieldKeepsPlain(s: Control, field: string, w: World)
    requires PlainLists(s) && InRange(s, w) && NoBreak(field)
    ensures PlainLists(ApplyField(s, field, w)) && InRange(ApplyField(s, field, w), w)
  {
    hide PlainLists, InRange, Apply, NoBreak;
    var f := Unsign(field);
    if f != "" {
      if f != field {
        RestIsWhole(field);
      }
      var args := if |f| > 1 && f[1] == ',' then f[2..] else f[1..];
      if f[0] != ':' {
        RestIsWhole(f);
        if |f| > 1 && f[1] == ',' {
          RestIsWhole(f[1..]);
          assert f[1..][1..] == f[2..];
        }
      }
      ApplyKeepsPlain(s, f[0], field[0] == '-', args, w);
    }
  }

  /** Whatever the control string, the lists it makes have plain names. */
  lemma {:induction false} ParsePlain(s: Control, control: string, w: World)
    requires PlainLists(s) && InRange(s, w)
    ensures PlainLists(Parse(s, control, w)) && InRange(Parse(s, control, w), w)
    decreases |control|
  {
    hide PlainLists, InRange, ApplyField, NoBreak;
    var n := FieldEnd(control);
    if n > 0 {
      FieldIsWhole(control);
      FieldKeepsPlain(s, control[..n], w);
      if n < |control| {
        ParsePlain(ApplyField(s, control[..n], w), control[n + 1..], w);
      }
    }
  }

  /** For every control string whose numbers fit and whose output can be opened again: what it sets up is explained,
      pushed and explained again with the same result if and only if no name is written down that is a prefix of one
      written before it in the same list. */
  lemma StableExactlyWhen(control: string, w: World)
    requires var s := Parse(START, control, w); GoodSink(s.sink, w) && s.delay < INT_LIMIT && s.maxDepth < INT_LIMIT
    ensures var s := Parse(START, control, w);
      Explain(Parse(START, Explain(s), w)) == Explain(s) <==> Unambiguous(s)
  {
    hide Parse, Explain, Unambiguous, GoodSink, AllPlain;
    NothingPlain();
    ParsePlain(START, control, w);
    ExplainRoundTrip(Parse(START, control, w), w);
  }

  // ----- strings that do not come back -----

  /** A name that can be the only argument of a field. */
  predicate IsWord(a: string) {
    a != "" && CommaFree(a) && NoBreak(a) && a[|a| - 1] != '/'
  }

  /** Three fields for keywords: none yet, one to exclude, and one to include. */
  lemma ThreeFields(a: string, b: string, w: World)
    requires IsWord(a) && IsWord(b)
    ensures Parse(START, "d:-d," + a + ":+d," + b, w) ==
            START.(debugOn := true, keywords := AddName([Link(a, false, true, false)], b, false, false))
  {
    var f1, f2, f3 := "d", "-d," + a, "+d," + b;
    SolidFields(a, b);
    JoinThree(f1, f2, f3);
    assert f1 + ":" + (f2 + ":" + f3) == "d:-d," + a + ":+d," + b;
    hide IsWord, Solid, ApplyField, ApplyAll, Join, Parse, AddName;
    ParseJoined(START, [f1, f2, f3], w);
    ApplyThree(START, f1, f2, f3, w);
    var s1 := START.(debugOn := true);
    StartKeywords(w);
    ExcludeOne(s1, a, w);
    IncludeOne(s1.(keywords := AddName([], a, false, true)), b, w);
    FirstName(a);
  }

  lemma FirstName(a: string)
    ensures AddName([], a, false, true) == [Link(a, false, true, false)]
  {
  }

  lemma SolidFields(a: string, b: string)
    requires IsWord(a) && IsWord(b)
    ensures Solid("d") && Solid("-d," + a) && Solid("+d," + b)
  {
    NoColons("d");
    NoColons("-d,");
    NoColons("+d,");
    hide NoBreak;
    NoBreakBoth("-d,", a);
    NoBreakBoth("+d,", b);
  }

  lemma StartKeywords(w: World)
    ensures ApplyField(START, "d", w) == START.(debugOn := true)
  {
    hide ApplyField;
    ApplyLetter(START, 'd', "", w);
  }

  lemma ExcludeOne(s: Control, a: string, w: World)
    requires IsWord(a) && s.debugOn
    ensures ApplyField(s, "-d," + a, w) == s.(keywords := AddName(s.keywords, a, false, true))
  {
    hide ApplyField, AddWords, AddName;
    OneWord(s.keywords, a, true);
    ApplyLetter(s, 'd', a, w);
    assert "-d," + a == ['-', 'd'] + ("," + a);
  }

  lemma IncludeOne(s: Control, b: string, w: World)
    requires IsWord(b) && s.debugOn
    ensures ApplyField(s, "+d," + b, w) == s.(keywords := AddName(s.keywords, b, false, false))
  {
    hide AddWords, AddName;
    OneWord(s.keywords, b, false);
    assert Unsign("+d," + b) == "d," + b;
    assert ("d," + b)[2..] == b;
  }

  lemma OneWord(list: seq<Link>, word: string, del: bool)
    requires word != "" && CommaFree(word) && word[|word| - 1] != '/'
    ensures AddWords(list, word, del) == AddName(list, word, false, del)
  {
    assert word + "" == word;
    WordEnds(word, "");
    assert word[..|word|] == word;
  }

  lemma JoinThree(a: string, b: string, c: string)
    ensures Join([a, b, c]) == a + ":" + (b + ":" + c)
  {
    assert [a, b, c][1..] == [b, c] && [b, c][1..] == [c];
    assert Join([b, c]) == b + ":" + Join([c]);
  }

  lemma ApplyThree(s: Control, a: string, b: string, c: string, w: World)
    ensures ApplyAll(s, [a, b, c], w) == ApplyField(ApplyField(ApplyField(s, a, w), b, w), c, w)
  {
    hide ApplyField;
    assert [a, b, c][1..] == [b, c] && [b, c][1..] == [c] && [c][1..] == [];
    assert ApplyAll(ApplyField(ApplyField(s, a, w), b, w), [c], w)
        == ApplyAll(ApplyField(ApplyField(ApplyField(s, a, w), b, w), c, w), [], w);
  }

  lemma OneMoreName(l: Link, b: string)
    requires !(b <= l.name)
    ensures AddName([l], b, false, false) == [l, Link(b, true, false, false)]
  {
    assert [l][1..] == [];
    assert AddName([], b, false, false) == [Link(b, true, false, false)];
  }

  lemma ShortWords()
    ensures IsWord("a") && IsWord("ab") && !("ab" <= "a") && "a" <= "ab"
  {
    NoColons("a");
    NoColons("ab");
    assert "ab" == "a" + "b";
  }

  /** One name to exclude and one to include, in this order. */
  lemma PrintedTwo(a: string, b: string)
    ensures Printed([Link(a, false, true, false), Link(b, true, false, false)])
         == [Link(b, true, false, false), Link(a, false, true, false)]
  {
    var l, l' := Link(a, false, true, false), Link(b, true, false, false);
    assert [l, l'] == [l] + [l'];
    SelectFirst(l, [l'], false);
    SelectFirst(l, [l'], true);
    SelectOne(l', false);
    SelectOne(l', true);
  }

  lemma SelectOne(l: Link, del: bool)
    ensures Select([l], del) == if Chosen(l, del) then [Only(l, del)] else []
  {
    assert [l][1..] == [];
  }

  /** Two links written down one after the other, the name of the second one being a prefix of the first. */
  lemma ClashOfTwo(s: Control, first: Link, second: Link)
    requires s.debugOn && Printed(s.keywords) == [first, second] && second.name <= first.name
    ensures !Unambiguous(s)
  {
    hide Printed;
    var p := Printed(s.keywords);
    assert p[1].name <= p[0].name;
  }

  /** Excluding "a" and then including "ab": "ab" is written down first, and reading "a" back removes it. */
  lemma PrefixIsLost(w: World)
    ensures var s := Parse(START, "d:-d,a:+d,ab", w);
      && s.keywords == [Link("a", false, true, false), Link("ab", true, false, false)]
      && Explain(Parse(START, Explain(s), w)) != Explain(s)
  {
    hide Parse, Explain, IsWord, AddName, Printed, Unambiguous;
    ShortWords();
    ThreeFields("a", "ab", w);
    assert "d:-d," + "a" + ":+d," + "ab" == "d:-d,a:+d,ab";
    OneMoreName(Link("a", false, true, false), "ab");
    PrintedTwo("a", "ab");
    StableExactlyWhen("d:-d,a:+d,ab", w);
    ClashOfTwo(Parse(START, "d:-d,a:+d,ab", w), Link("ab", true, false, false), Link("a", false, true, false));
  }

  /** Excluding and including the same name: the link is for both, is written down twice, and is lost. */
  lemma BothIsLost(w: World)
    ensures var s := Parse(START, "d:-d,a:+d,a", w);
      && s.keywords == [Link("a", true, true, false)]
      && Explain(Parse(START, Explain(s), w)) != Explain(s)
  {
    hide Parse, Explain, IsWord, Select, Unambiguous;
    ShortWords();
    ThreeFields("a", "a", w);
    assert "d:-d," + "a" + ":+d," + "a" == "d:-d,a:+d,a";
    var l := Link("a", true, true, false);
    assert [Link("a", false, true, false)][1..] == [];
    StableExactlyWhen("d:-d,a:+d,a", w);
    SelectOne(l, false);
    SelectOne(l, true);
    assert Printed([l]) == [Only(l, false), Only(l, true)];
    var s := Parse(START, "d:-d,a:+d,a", w);
    assert s.debugOn && s.keywords == [l];
    ClashOfTwo(s, Only(l, false), Only(l, true));
  }

  // ----- what one field does, another undoes -----

  lemma OneField(s: Control, a: string, w: World)
    requires Solid(a)
    ensures Parse(s, a, w) == ApplyField(s, a, w)
  {
    hide ApplyField, Parse;
    ParseJoined(s, [a], w);
    assert [a][1..] == [];
    assert ApplyAll(ApplyField(s, a, w), [], w) == ApplyField(s, a, w);
  }

  lemma TwoFields(s: Control, a: string, b: string, w: World)
    requires Solid(a) && Solid(b)
    ensures Parse(s, a + ":" + b, w) == ApplyField(ApplyField(s, a, w), b, w)
  {
    hide ApplyField, Parse;
    ParseJoined(s, [a, b], w);
    assert [a, b][1..] == [b] && [b][1..] == [];
    assert Join([a, b]) == a + ":" + Join([b]);
    assert ApplyAll(ApplyField(s, a, w), [b], w) == ApplyAll(ApplyField(ApplyField(s, a, w), b, w), [], w);
  }

  /** A letter with a sign, alone and with an argument. */
  lemma Signed(s: Control, c: char, args: string, w: World)
    requires IsLetter(c) && c != '+' && c != '-' && c != ',' && NoBreak(args)
    ensures Solid(['+', c]) && Solid(['-', c]) && Solid(['+', c] + ("," + args)) && Solid(['-', c] + ("," + args))
    ensures ApplyField(s, ['+', c], w) == Apply(s, c, false, "", w)
    ensures ApplyField(s, ['-', c], w) == Apply(s, c, true, "", w)
    ensures ApplyField(s, ['+', c] + ("," + args), w) == Apply(s, c, false, args, w)
    ensures ApplyField(s, ['-', c] + ("," + args), w) == Apply(s, c, true, args, w)
  {
    hide Apply;
    SignedSolid('+', c, args);
    SignedSolid('-', c, args);
    hide NoBreak;
    assert ['+', c][1..] == [c] && ['-', c][1..] == [c] && [c][1..] == "";
    assert (['+', c] + ("," + args))[1..] == [c] + ("," + args) && (['-', c] + ("," + args))[1..] == [c] + ("," + args);
    assert ([c] + ("," + args))[2..] == args;
  }

  lemma SignedSolid(sign: char, c: char, args: string)
    requires (sign == '+' || sign == '-') && IsLetter(c) && NoBreak(args)
    ensures Solid([sign, c]) && Solid([sign, c] + ("," + args))
  {
    NoColons([sign, c]);
    NoColons(",");
    hide NoBreak;
    NoBreakBoth(",", args);
    NoBreakBoth([sign, c], "," + args);
  }

  /** A flag is on after its letter and off after its letter with a minus sign, whatever came before. */
  lemma FlagSwitched(s: Control, c: char, w: World)
    requires c in MARKS
    ensures Parse(s, ['+', c], w) == s.(marks := s.marks + {c})
    ensures Parse(s, ['-', c], w) == s.(marks := s.marks - {c})
    ensures Parse(s, ['+', c] + ":" + ['-', c], w) == s.(marks := s.marks - {c})
    ensures Parse(s, ['-', c] + ":" + ['+', c], w) == s.(marks := s.marks + {c})
  {
    hide Parse, ApplyField;
    NoBreakEmpty();
    Signed(s, c, "", w);
    OneField(s, ['+', c], w);
    OneField(s, ['-', c], w);
    TwoFields(s, ['+', c], ['-', c], w);
    TwoFields(s, ['-', c], ['+', c], w);
    var on, off := s.(marks := s.marks + {c}), s.(marks := s.marks - {c});
    Signed(on, c, "", w);
    Signed(off, c, "", w);
    assert s.marks + {c} - {c} == s.marks - {c} && s.marks - {c} + {c} == s.marks + {c};
  }

  /** The letters of lists, of the depth and of the output with nothing but a minus sign. */
  lemma SwitchedOff(s: Control, w: World)
    ensures Parse(s, "-d", w) == s.(debugOn := false, keywords := [])
    ensures Parse(s, "-f", w) == s.(functions := []) && Parse(s, "-p", w) == s.(processes := [])
    ensures Parse(s, "-t", w) == s.(traceOn := false, maxDepth := 0)
    ensures forall c :: c in ['a', 'A', 'o', 'O'] ==>
      Parse(s, ['-', c], w).(sink := s.sink) == s && Parse(s, ['-', c], w).sink.output == Stderr && !Parse(s, ['-', c], w).sink.flush
  {
    hide Parse, ApplyField;
    NoBreakEmpty();
    Minus(s, 'd', w);
    Minus(s, 'f', w);
    Minus(s, 'p', w);
    Minus(s, 't', w);
    forall c | c in ['a', 'A', 'o', 'O']
      ensures Parse(s, ['-', c], w).(sink := s.sink) == s && Parse(s, ['-', c], w).sink.output == Stderr && !Parse(s, ['-', c], w).sink.flush
    {
      Minus(s, c, w);
    }
  }

  lemma Minus(s: Control, c: char, w: World)
    requires IsLetter(c) && c != '+' && c != '-' && c != ','
    ensures Parse(s, ['-', c], w) == Apply(s, c, true, "", w)
  {
    hide Parse, ApplyField, Apply;
    NoBreakEmpty();
    Signed(s, c, "", w);
    OneField(s, ['-', c], w);
  }

  /** Adding to the depth and taking the same off again. */
  lemma DepthUndone(s: Control, n: nat, w: World)
    requires s.maxDepth + n < UINT_RANGE && (s.traceOn <==> s.maxDepth > 0)
    ensures Parse(s, "+t," + Digits(n), w) == s.(maxDepth := s.maxDepth + n, traceOn := s.maxDepth + n > 0)
    ensures Parse(s, "+t," + Digits(n) + ":" + ("-t," + Digits(n)), w) == s
  {
    NumberOfDigits(n);
    NoColons(Digits(n));
    DepthEdits(s, n, Digits(n), w);
    hide Parse, ApplyField, Digits, Apply;
    PairOfFields(s, 't', Digits(n), w);
    assert "+t," + Digits(n) == ['+', 't'] + "," + Digits(n) && "-t," + Digits(n) == ['-', 't'] + "," + Digits(n);
  }

  lemma DepthEdits(s: Control, n: nat, digits: string, w: World)
    requires s.maxDepth + n < UINT_RANGE && (s.traceOn <==> s.maxDepth > 0) && digits != "" && Atoi(digits) == n
    ensures var t := s.(maxDepth := s.maxDepth + n, traceOn := s.maxDepth + n > 0);
      Apply(s, 't', false, digits, w) == t && Apply(t, 't', true, digits, w) == s
  {
    hide Atoi, AddWords;
  }

  lemma {:induction false} RemoveLast(list: seq<Link>, name: string)
    requires forall i :: 0 <= i < |list| ==> !(name <= list[i].name)
    ensures AddName(list + [Link(name, true, false, false)], name, false, true) == list
  {
    var l := Link(name, true, false, false);
    if list == [] {
      assert [] + [l] == [l] && [l][1..] == [];
    } else {
      RemoveLast(list[1..], name);
      assert (list + [l])[1..] == list[1..] + [l];
    }
  }

  /** Adding a name that no link of the list starts with, and taking it off again. */
  lemma FunctionUndone(s: Control, a: string, w: World)
    requires IsWord(a) && forall i :: 0 <= i < |s.functions| ==> !(a <= s.functions[i].name)
    ensures Parse(s, "+f," + a, w) == s.(functions := s.functions + [Link(a, true, false, false)])
    ensures Parse(s, "+f," + a + ":" + ("-f," + a), w) == s
  {
    hide Parse, AddWords, NoBreak;
    PairOfFields(s, 'f', a, w);
    assert "+f," + a == ['+', 'f'] + "," + a && "-f," + a == ['-', 'f'] + "," + a;
    ThereAndBack(s.functions, a);
  }

  lemma ProcessUndone(s: Control, a: string, w: World)
    requires IsWord(a) && forall i :: 0 <= i < |s.processes| ==> !(a <= s.processes[i].name)
    ensures Parse(s, "+p," + a, w) == s.(processes := s.processes + [Link(a, true, false, false)])
    ensures Parse(s, "+p," + a + ":" + ("-p," + a), w) == s
  {
    hide Parse, AddWords, NoBreak;
    PairOfFields(s, 'p', a, w);
    assert "+p," + a == ['+', 'p'] + "," + a && "-p," + a == ['-', 'p'] + "," + a;
    ThereAndBack(s.processes, a);
  }

  lemma KeywordUndone(s: Control, a: string, w: World)
    requires IsWord(a) && forall i :: 0 <= i < |s.keywords| ==> !(a <= s.keywords[i].name)
    ensures Parse(s, "+d," + a, w) == s.(debugOn := true, keywords := s.keywords + [Link(a, true, false, false)])
    ensures Parse(s, "+d," + a + ":" + ("-d," + a), w) == s.(debugOn := true)
  {
    hide Parse, AddWords, NoBreak;
    PairOfFields(s, 'd', a, w);
    assert "+d," + a == ['+', 'd'] + "," + a && "-d," + a == ['-', 'd'] + "," + a;
    ThereAndBack(s.keywords, a);
  }

  lemma ThereAndBack(list: seq<Link>, a: string)
    requires IsWord(a)
    ensures (forall i :: 0 <= i < |list| ==> !(a <= list[i].name)) ==>
      var l := Link(a, true, false, false);
      AddWords(list, a, false) == list + [l] && AddWords(list + [l], a, true) == list
  {
    hide NoBreak;
    if forall i :: 0 <= i < |list| ==> !(a <= list[i].name) {
      OneWord(list, a, false);
      AddNew(list, a, false, false);
      OneWord(list + [Link(a, true, false, false)], a, true);
      RemoveLast(list, a);
    }
  }

  lemma PairOfFields(s: Control, c: char, a: string, w: World)
    requires NoBreak(a) && IsLetter(c) && c != '+' && c != '-' && c != ','
    ensures Parse(s, ['+', c] + "," + a, w) == Apply(s, c, false, a, w)
    ensures Parse(s, ['+', c] + "," + a + ":" + (['-', c] + "," + a), w) == Apply(Apply(s, c, false, a, w), c, true, a, w)
  {
    hide Parse, ApplyField, Apply, NoBreak;
    assert ['+', c] + "," + a == ['+', c] + ("," + a) && ['-', c] + "," + a == ['-', c] + ("," + a);
    Signed(s, c, a, w);
    Signed(Apply(s, c, false, a, w), c, a, w);
    OneField(s, ['+', c] + "," + a, w);
    TwoFields(s, ['+', c] + "," + a, ['-', c] + "," + a, w);
  }
}
