/** A change of the dbug settings by a control string, down to the trace bits of the active functions. */
module DbugConfiguring {
  import opened DbugTracing
  import opened DbugControl
  import opened DbugControlCode

  /** Without the mark of a command line option. */
  function Unmarked(control: string): string {
    if |control| >= 2 && control[0] == '-' && control[1] == '#' then control[2..] else control
  }

  /** A change to the settings there are, rather than new ones. */
  predicate Relative(control: string) {
    control != "" && (control[0] == '+' || control[0] == '-')
  }

  function Before(current: Control, control: string): Control {
    if Relative(control) then current else START
  }

  /** What the trace bits depend on. */
  function Traced(s: Control, process: string): Settings {
    Settings(s.functions, s.processes, process, s.maxDepth)
  }

  /** The flags of a list do not depend on the order of its elements, which a copy reverses. */
  lemma FlagsOfCopy(a: seq<Link>, b: seq<Link>)
    requires multiset(a) == multiset(b)
    ensures FlagsOf(a) == FlagsOf(b)
  {
    FlagsWithin(a, b);
    FlagsWithin(b, a);
  }

  lemma FlagsWithin(a: seq<Link>, b: seq<Link>)
    requires multiset(a) == multiset(b)
    ensures FlagsOf(a).included ==> FlagsOf(b).included
    ensures FlagsOf(a).subdir ==> FlagsOf(b).subdir
  {
    if FlagsOf(a).included {
      var i :| 0 <= i < |a| && a[i].included;
      assert a[i] in multiset(b);
    }
    if FlagsOf(a).subdir {
      var i :| 0 <= i < |a| && a[i].subdir;
      assert a[i] in multiset(b);
    }
  }

  /** A rule that traces "f" and what it calls, and a call of "f". */
  const SUBTREE: Link := Link("f", true, false, true)
  const CALLS: seq<Frame> := [Frame("main", 1, false), Frame("f", 2, true)]

  /** Less depth under a rule for a subtree: the bit of "f" is left on, though recomputing would switch it off. */
  lemma StaleAfterDepth(m: Matcher, w: World)
    requires m("f", "f") && !m("f", "main")
    ensures var before := START.(functions := [SUBTREE]);
      var after := Parse(before, "+t,1", w);
      && Relative("+t,1") && !UsesFunctions("+t,1") && after == before.(maxDepth := 1, traceOn := true)
      && Bits(CALLS) == Rematched(Traced(before, "dbug"), CALLS, m)
      && Bits(CALLS) != Rematched(Traced(after, "dbug"), CALLS, m)
  {
    hide Parse, UsesFunctions, Rematched, Bits;
    OneLevel(START.(functions := [SUBTREE]), w);
    RightBefore(m);
    WrongAfter(m);
  }

  /** What the rule says about the two functions. */
  lemma SubtreeRule(m: Matcher)
    requires m("f", "f") && !m("f", "main")
    ensures InList([SUBTREE], "f", m) == Hit(SUBTREE) && InList([SUBTREE], "main", m) == Miss(false, true)
    ensures !Default([SUBTREE])
  {
    var list := [SUBTREE];
    assert list[1..] == [] && list[0].included;
    assert InListFrom(list, "main", m, Miss(true, false)) == InListFrom(list[1..], "main", m, Miss(false, true));
  }

  lemma RightBefore(m: Matcher)
    requires m("f", "f") && !m("f", "main")
    ensures Bits(CALLS) == Rematched(Settings([SUBTREE], [], "dbug", 0), CALLS, m)
  {
    hide InList, Rematched, Bits, Default;
    SubtreeRule(m);
    NobodyListed("dbug", m);
    ExactIsLocal(Settings([SUBTREE], [], "dbug", 0), CALLS, m);
  }

  lemma WrongAfter(m: Matcher)
    requires m("f", "f") && !m("f", "main")
    ensures Bits(CALLS) != Rematched(Settings([SUBTREE], [], "dbug", 1), CALLS, m)
  {
    hide InList, Rematched, Bits, Default;
    var st := Settings([SUBTREE], [], "dbug", 1);
    ExactIsLocal(st, CALLS, m);
    assert !RightAt(st, CALLS, m, 1);
  }

  lemma NobodyListed(name: string, m: Matcher)
    ensures InList([], name, m) == Miss(true, false)
  {
  }

  lemma OneLevel(s: Control, w: World)
    requires s.maxDepth == 0
    ensures Parse(s, "+t,1", w) == s.(maxDepth := 1, traceOn := true) && !UsesFunctions("+t,1")
  {
    NoColons("+t,1");
    assert "+t,1"[..4] == "+t,1" && Unsign("+t,1") == "t,1" && "t,1"[2..] == "1" && "1"[1..] == "";
    assert Number("1", 0) == Number("", 1) && Atoi("1") == 1;
  }

  /** `current` holds the settings that a relative control string starts from: the lists of the current ones, shared
      or copied. The trace bits are recomputed when the string is not relative or has a field for the list of
      functions; otherwise that list is as it was, and the bits stay right unless there are rules for subtrees. With
      such rules, right bits stay right if and only if the change makes no difference for any active function. */
  method Reconfigure(t: Tracer, current: Control, control: string, w: World) returns (r: Control)
    requires t.Valid() && multiset(current.functions) == multiset(t.settings.functions)
    modifies t
    ensures var c := Unmarked(control);
      && r == Parse(Before(current, c), c, w)
      && (Relative(c) && !UsesFunctions(c) ==> r.functions == current.functions && t.frames == old(t.frames))
      && (!Relative(c) || UsesFunctions(c) || !FlagsOf(r.functions).subdir ==> t.Exact())
    ensures var c := Unmarked(control);
      Relative(c) && !UsesFunctions(c) && old(t.Exact()) && current.functions == old(t.settings.functions) ==>
        (t.Exact() <==> NoDifference(old(t.settings), t.settings, t.frames, t.m))
    ensures t.settings == Traced(r, old(t.settings.process)) && t.level == old(t.level)
    ensures t.Valid() && SameCalls(t.frames, old(t.frames))
  {
    hide FlagsOf, Parse, UsesFunctions;
    var c := Unmarked(control);
    var relative := Relative(c);
    var functionsUsed;
    r, functionsUsed := DbugParse(if relative then current else START, c, w);
    if relative && !functionsUsed {
      FunctionsKept(current, c, w);
      FlagsOfCopy(r.functions, t.settings.functions);
    }
    ghost var before, exact := t.settings, t.Exact();
    t.Configure(Traced(r, t.settings.process), !relative || functionsUsed);
    if relative && !functionsUsed && exact && current.functions == before.functions {
      LeftAloneRightWhen(before, t.settings, t.frames, t.m);
    }
  }
}
