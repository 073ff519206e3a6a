/** The trace bits of the dbug call stack: whether each active function is traced, and the shortcuts
    that avoid re-matching the whole stack when the list of functions changes.
  */
module DbugTracing {

  /** An element of a function or process list. */
  datatype Link = Link(name: string, included: bool, excluded: bool, subdir: bool)

  /** How names are matched: `fnmatch` in the source. */
  type Matcher = (string, string) -> bool

  /** What a look-up in a list yields: the flags of the matching element, or whether the list as a
      whole accepts unlisted names, together with a SUBDIR mark. */
  datatype Found = Hit(link: Link) | Miss(accepted: bool, subdir: bool)

  function InListFrom(list: seq<Link>, name: string, m: Matcher, sofar: Found): Found
    requires sofar.Miss?
  {
    if list == [] then sofar
    else if m(list[0].name, name) then Hit(list[0])
    else
      var r := if list[0].excluded then sofar else Miss(false, false);
      InListFrom(list[1..], name, m, if list[0].subdir then r.(subdir := true) else r)
  }

  function InList(list: seq<Link>, name: string, m: Matcher): Found {
    InListFrom(list, name, m, Miss(true, false))
  }

  datatype ListFlags = ListFlags(included: bool, subdir: bool)

  /** The flags of all elements together. */
  function FlagsOf(list: seq<Link>): ListFlags {
    ListFlags(exists i :: 0 <= i < |list| && list[i].included, exists i :: 0 <= i < |list| && list[i].subdir)
  }

  datatype Settings = Settings(
    functions: seq<Link>,
    processes: seq<Link>,
    process: string,
    maxDepth: nat)

  datatype TraceRule = DoTrace | DontTrace | EnableTrace | DisableTrace

  /** Whether functions at nesting level `level` are traced at all: the depth and the process allow it. */
  predicate Applies(st: Settings, level: nat, m: Matcher) {
    var p := InList(st.processes, st.process, m);
    var selected := match p case Hit(l) => l.included case Miss(accepted, _) => accepted;
    (st.maxDepth == 0 || level <= st.maxDepth) && selected
  }

  /** What the list of functions says about a function called `func`. */
  function RuleFor(list: seq<Link>, func: string, m: Matcher, frameTraced: bool): TraceRule {
    match InList(list, func, m)
    case Hit(l) =>
      if l.included && !l.excluded then (if l.subdir then EnableTrace else DoTrace)
      else if l.excluded && !l.included && l.subdir then DisableTrace
      else DontTrace
    case Miss(accepted, subdir) =>
      if accepted || subdir then (if frameTraced then DoTrace else DontTrace) else DontTrace
  }

  /** Whether tracing is on in a function called `func` at nesting level `level`. */
  function Decide(st: Settings, func: string, level: nat, m: Matcher, frameTraced: bool): TraceRule {
    if Applies(st, level, m) then RuleFor(st.functions, func, m, frameTraced) else DontTrace
  }

  /** Unlisted functions are traced unless the list names functions to include. */
  predicate Default(list: seq<Link>) {
    !FlagsOf(list).included
  }

  function NewBit(rule: TraceRule, inherited: bool): bool {
    match rule
    case EnableTrace => true
    case DisableTrace => false
    case _ => inherited
  }

  datatype Frame = Frame(func: string, level: nat, traced: bool)

  /** The bits that matching every frame anew gives, from the outermost frame inwards. */
  function Rematched(st: Settings, frames: seq<Frame>, m: Matcher): (bits: seq<bool>)
    ensures |bits| == |frames|
  {
    if frames == [] then []
    else
      var outer := Rematched(st, frames[..|frames| - 1], m);
      var f := frames[|frames| - 1];
      var inherited := if outer == [] then Default(st.functions) else outer[|outer| - 1];
      outer + [NewBit(Decide(st, f.func, f.level, m, inherited), inherited)]
  }

  function Bits(frames: seq<Frame>): (bits: seq<bool>)
    ensures |bits| == |frames|
    ensures forall i :: 0 <= i < |frames| ==> bits[i] == frames[i].traced
  {
    if frames == [] then [] else Bits(frames[..|frames| - 1]) + [frames[|frames| - 1].traced]
  }

  /** Without SUBDIR rules the bits are all the default. */
  ghost predicate Consistent(flags: ListFlags, frames: seq<Frame>) {
    !flags.subdir ==> forall i :: 0 <= i < |frames| ==> frames[i].traced == !flags.included
  }

  lemma {:induction false} LookupHits(list: seq<Link>, name: string, m: Matcher, sofar: Found)
    requires sofar.Miss?
    ensures var r := InListFrom(list, name, m, sofar); r.Hit? ==> exists i :: 0 <= i < |list| && list[i] == r.link
  {
    if list != [] && !m(list[0].name, name) {
      var r := if list[0].excluded then sofar else Miss(false, false);
      var next := if list[0].subdir then r.(subdir := true) else r;
      LookupHits(list[1..], name, m, next);
      if InListFrom(list[1..], name, m, next).Hit? {
        var i :| 0 <= i < |list[1..]| && list[1..][i] == InListFrom(list[1..], name, m, next).link;
        assert list[i + 1] == InListFrom(list, name, m, sofar).link;
      }
    }
  }

  /** Only a SUBDIR rule changes the bit of a frame. */
  lemma NoRuleNoChange(st: Settings, func: string, level: nat, m: Matcher, inherited: bool)
    requires !FlagsOf(st.functions).subdir
    ensures NewBit(Decide(st, func, level, m, inherited), inherited) == inherited
  {
    LookupHits(st.functions, func, m, Miss(true, false));
  }

  lemma {:induction false} NoRuleAllDefault(st: Settings, frames: seq<Frame>, m: Matcher)
    requires !FlagsOf(st.functions).subdir
    ensures forall i :: 0 <= i < |frames| ==> Rematched(st, frames, m)[i] == Default(st.functions)
  {
    if frames != [] {
      NoRuleAllDefault(st, frames[..|frames| - 1], m);
      var f := frames[|frames| - 1];
      NoRuleNoChange(st, f.func, f.level, m, Default(st.functions));
    }
  }

  /** The state right after a full re-match is consistent. */
  lemma ExactIsConsistent(st: Settings, frames: seq<Frame>, m: Matcher)
    requires Bits(frames) == Rematched(st, frames, m)
    ensures Consistent(FlagsOf(st.functions), frames)
  {
    if !FlagsOf(st.functions).subdir {
      NoRuleAllDefault(st, frames, m);
      assert forall i :: 0 <= i < |frames| ==> Bits(frames)[i] == frames[i].traced;
    }
  }

  lemma SameBits(a: seq<bool>, b: seq<bool>)
    requires |a| == |b| && forall i :: 0 <= i < |a| ==> a[i] == b[i]
    ensures a == b
  {
  }

  /** The names and levels of frames, which the trace bits do not affect. */
  ghost predicate SameCalls(a: seq<Frame>, b: seq<Frame>) {
    |a| == |b| && forall i :: 0 <= i < |a| ==> a[i].func == b[i].func && a[i].level == b[i].level
  }

  lemma {:induction false} RematchIgnoresBits(st: Settings, a: seq<Frame>, b: seq<Frame>, m: Matcher)
    requires SameCalls(a, b)
    ensures Rematched(st, a, m) == Rematched(st, b, m)
  {
    if a != [] {
      RematchIgnoresBits(st, a[..|a| - 1], b[..|b| - 1], m);
    }
  }

  // ----- one function at a time -----

  /** The bit that a function called from the innermost one inherits. */
  function Inherited(list: seq<Link>, frames: seq<Frame>): bool {
    if |frames| == 0 then Default(list) else frames[|frames| - 1].traced
  }

  lemma EnteredConsistent(st: Settings, frames: seq<Frame>, f: Frame, m: Matcher)
    requires Consistent(FlagsOf(st.functions), frames)
    requires var outer := Inherited(st.functions, frames); f.traced == NewBit(Decide(st, f.func, f.level, m, outer), outer)
    ensures Consistent(FlagsOf(st.functions), frames + [f])
  {
    hide Decide, FlagsOf;
    if !FlagsOf(st.functions).subdir {
      NoRuleNoChange(st, f.func, f.level, m, Inherited(st.functions, frames));
    }
  }

  lemma EnteredExact(st: Settings, frames: seq<Frame>, f: Frame, m: Matcher)
    requires Bits(frames) == Rematched(st, frames, m)
    requires var outer := Inherited(st.functions, frames); f.traced == NewBit(Decide(st, f.func, f.level, m, outer), outer)
    ensures Bits(frames + [f]) == Rematched(st, frames + [f], m)
  {
    hide Decide, FlagsOf, Bits, Rematched;
    ExactIsLocal(st, frames, m);
    ExactIsLocal(st, frames + [f], m);
    forall i | 0 <= i < |frames + [f]|
      ensures RightAt(st, frames + [f], m, i)
    {
      if i < |frames| {
        assert RightAt(st, frames, m, i);
      }
    }
  }

  /** The bit that function `i` inherits. */
  function Outer(list: seq<Link>, frames: seq<Frame>, i: nat): bool
    requires i < |frames|
  {
    if i == 0 then Default(list) else frames[i - 1].traced
  }

  /** Function `i` has the bit that its rule makes of the one it inherits. */
  ghost predicate RightAt(st: Settings, frames: seq<Frame>, m: Matcher, i: nat)
    requires i < |frames|
  {
    var outer := Outer(st.functions, frames, i);
    frames[i].traced == NewBit(Decide(st, frames[i].func, frames[i].level, m, outer), outer)
  }

  /** Recomputing changes nothing exactly when every function has the right bit. */
  lemma {:induction false} ExactIsLocal(st: Settings, frames: seq<Frame>, m: Matcher)
    ensures Bits(frames) == Rematched(st, frames, m) <==> forall i :: 0 <= i < |frames| ==> RightAt(st, frames, m, i)
  {
    if frames != [] {
      hide Decide;
      var n := |frames| - 1;
      var front := frames[..n];
      ExactIsLocal(st, front, m);
      assert forall i :: 0 <= i < n ==> RightAt(st, front, m, i) == RightAt(st, frames, m, i);
      LastBit(st, frames, m);
      if Bits(front) == Rematched(st, front, m) {
        assert n > 0 ==> Rematched(st, front, m)[n - 1] == Bits(front)[n - 1] == frames[n - 1].traced;
        assert frames[n].traced == Rematched(st, frames, m)[n] <==> RightAt(st, frames, m, n);
      }
    }
  }

  /** The bits of all functions are those of the outer ones and the last one. */
  lemma LastBit(st: Settings, frames: seq<Frame>, m: Matcher)
    requires frames != []
    ensures var n := |frames| - 1;
      Bits(frames) == Rematched(st, frames, m) <==>
      Bits(frames[..n]) == Rematched(st, frames[..n], m) && frames[n].traced == Rematched(st, frames, m)[n]
  {
    hide Decide;
    var n := |frames| - 1;
    var a, b := Bits(frames), Rematched(st, frames, m);
    assert a[..n] == Bits(frames[..n]) && b[..n] == Rematched(st, frames[..n], m);
    if a[..n] == b[..n] && a[n] == b[n] {
      assert a == a[..n] + [a[n]] && b == b[..n] + [b[n]];
    }
  }

  /** For every function that starts or stops being traced at all, its rule makes no difference. */
  ghost predicate NoDifference(st: Settings, st': Settings, frames: seq<Frame>, m: Matcher) {
    forall i :: 0 <= i < |frames| && Applies(st, frames[i].level, m) != Applies(st', frames[i].level, m) ==>
      var outer := Outer(st.functions, frames, i);
      NewBit(RuleFor(st.functions, frames[i].func, m, outer), outer) == outer
  }

  /** Right bits that are left alone when the depth or the process list changes, but not the list of functions, stay
      right if and only if that makes no difference for any active function. */
  lemma LeftAloneRightWhen(st: Settings, st': Settings, frames: seq<Frame>, m: Matcher)
    requires st.functions == st'.functions && Bits(frames) == Rematched(st, frames, m)
    ensures Bits(frames) == Rematched(st', frames, m) <==> NoDifference(st, st', frames, m)
  {
    hide Rematched, Bits, Applies, RuleFor;
    ExactIsLocal(st, frames, m);
    ExactIsLocal(st', frames, m);
    forall i | 0 <= i < |frames|
      ensures RightAt(st', frames, m, i) <==>
        (Applies(st, frames[i].level, m) != Applies(st', frames[i].level, m) ==>
         var outer := Outer(st.functions, frames, i); NewBit(RuleFor(st.functions, frames[i].func, m, outer), outer) == outer)
    {
      assert RightAt(st, frames, m, i);
    }
  }

  // ----- what the links say -----

  /** The first element of the list whose name matches. */
  ghost predicate FirstMatch(list: seq<Link>, name: string, m: Matcher, k: int) {
    0 <= k < |list| && m(list[k].name, name) && forall j :: 0 <= j < k ==> !m(list[j].name, name)
  }

  ghost predicate Matches(list: seq<Link>, name: string, m: Matcher) {
    exists k :: 0 <= k < |list| && m(list[k].name, name)
  }

  ghost predicate OnlyExcluded(list: seq<Link>) {
    forall k :: 0 <= k < |list| ==> list[k].excluded
  }

  /** A subtree element with nothing but excluded elements after it. */
  ghost predicate SubdirLast(list: seq<Link>) {
    exists k :: 0 <= k < |list| && list[k].subdir && forall l :: k < l < |list| ==> list[l].excluded
  }

  lemma {:induction false} LookupIs(list: seq<Link>, name: string, m: Matcher, sofar: Found)
    requires sofar.Miss?
    ensures var r := InListFrom(list, name, m, sofar);
      && (r.Hit? <==> Matches(list, name, m))
      && (forall k :: FirstMatch(list, name, m, k) ==> r == Hit(list[k]))
      && (r.Miss? ==> r.accepted == (sofar.accepted && OnlyExcluded(list)))
      && (r.Miss? ==> r.subdir == (SubdirLast(list) || (sofar.subdir && OnlyExcluded(list))))
  {
    if list != [] {
      var rest := list[1..];
      assert forall k :: 1 <= k < |list| ==> list[k] == rest[k - 1];
      if !m(list[0].name, name) {
        var r := if list[0].excluded then sofar else Miss(false, false);
        LookupIs(rest, name, m, if list[0].subdir then r.(subdir := true) else r);
        TailOf(list, name, m);
      }
    }
  }

  lemma TailOf(list: seq<Link>, name: string, m: Matcher)
    requires list != [] && !m(list[0].name, name)
    ensures Matches(list, name, m) == Matches(list[1..], name, m)
    ensures forall k :: FirstMatch(list, name, m, k) ==> k > 0 && FirstMatch(list[1..], name, m, k - 1) && list[1..][k - 1] == list[k]
    ensures OnlyExcluded(list) == (list[0].excluded && OnlyExcluded(list[1..]))
    ensures SubdirLast(list) == (SubdirLast(list[1..]) || (list[0].subdir && OnlyExcluded(list[1..])))
  {
    TailMatches(list, name, m);
    TailFlags(list);
    hide Matches, FirstMatch, OnlyExcluded, SubdirLast;
  }

  lemma TailMatches(list: seq<Link>, name: string, m: Matcher)
    requires list != [] && !m(list[0].name, name)
    ensures Matches(list, name, m) == Matches(list[1..], name, m)
    ensures forall k :: FirstMatch(list, name, m, k) ==> k > 0 && FirstMatch(list[1..], name, m, k - 1) && list[1..][k - 1] == list[k]
  {
    var rest := list[1..];
    assert forall k :: 0 <= k < |rest| ==> rest[k] == list[k + 1];
    if k :| 0 <= k < |list| && m(list[k].name, name) {
      assert m(rest[k - 1].name, name);
    }
    if k :| 0 <= k < |rest| && m(rest[k].name, name) {
      assert m(list[k + 1].name, name);
    }
  }

  lemma TailFlags(list: seq<Link>)
    requires list != []
    ensures OnlyExcluded(list) == (list[0].excluded && OnlyExcluded(list[1..]))
    ensures SubdirLast(list) == (SubdirLast(list[1..]) || (list[0].subdir && OnlyExcluded(list[1..])))
  {
    var rest := list[1..];
    assert forall k :: 1 <= k < |list| ==> list[k] == rest[k - 1];
    if k :| 0 < k < |list| && list[k].subdir && forall l :: k < l < |list| ==> list[l].excluded {
      assert rest[k - 1].subdir && forall l :: k - 1 < l < |rest| ==> rest[l].excluded;
    }
    if k :| 0 <= k < |rest| && rest[k].subdir && forall l :: k < l < |rest| ==> rest[l].excluded {
      assert list[k + 1].subdir && forall l :: k + 1 < l < |list| ==> list[l].excluded;
    }
  }

  /** The depth allows the level, and the process is named to be included first or, with nothing but exclusions, not
      named at all. */
  ghost predicate Allowed(st: Settings, level: nat, m: Matcher) {
    && (st.maxDepth == 0 || level <= st.maxDepth)
    && (if Matches(st.processes, st.process, m)
        then forall k :: FirstMatch(st.processes, st.process, m, k) ==> st.processes[k].included
        else OnlyExcluded(st.processes))
  }

  /** The function is allowed, and the first element for it is for its subtree and only includes, or only excludes. */
  ghost predicate Switches(st: Settings, f: Frame, m: Matcher, on: bool) {
    && Allowed(st, f.level, m)
    && exists k :: FirstMatch(st.functions, f.func, m, k) && st.functions[k].subdir
                   && st.functions[k].included == on && st.functions[k].excluded == !on
  }

  /** The innermost function up to `i` that switches tracing on or off says what its bit is; without one, it is whether
      no function is to be included. */
  ghost predicate ByLinks(st: Settings, frames: seq<Frame>, m: Matcher, i: nat, bit: bool)
    requires i < |frames|
  {
    || (exists j :: 0 <= j <= i && Switches(st, frames[j], m, bit) && Quiet(st, frames, m, j + 1, i))
    || (Quiet(st, frames, m, 0, i) && (bit <==> forall k :: 0 <= k < |st.functions| ==> !st.functions[k].included))
  }

  /** None of the functions from `lo` to `hi` switches. */
  ghost predicate Quiet(st: Settings, frames: seq<Frame>, m: Matcher, lo: nat, hi: nat)
    requires hi < |frames|
  {
    forall l :: lo <= l <= hi ==> !Switches(st, frames[l], m, true) && !Switches(st, frames[l], m, false)
  }

  lemma {:induction false} FirstExists(list: seq<Link>, name: string, m: Matcher) returns (k: nat)
    requires Matches(list, name, m)
    ensures FirstMatch(list, name, m, k)
  {
    k := 0;
    while !m(list[k].name, name)
      invariant k < |list| && (forall j :: 0 <= j < k ==> !m(list[j].name, name))
      invariant exists l :: k <= l < |list| && m(list[l].name, name)
      decreases |list| - k
    {
      k := k + 1;
    }
  }

  lemma AllowedIs(st: Settings, level: nat, m: Matcher)
    ensures Applies(st, level, m) == Allowed(st, level, m)
  {
    LookupIs(st.processes, st.process, m, Miss(true, false));
    if Matches(st.processes, st.process, m) {
      var k := FirstExists(st.processes, st.process, m);
      assert InList(st.processes, st.process, m) == Hit(st.processes[k]);
    }
  }

  /** What a function does to the bit it inherits. */
  lemma SwitchIs(st: Settings, f: Frame, m: Matcher, outer: bool)
    ensures var bit := NewBit(Decide(st, f.func, f.level, m, outer), outer);
      && (Switches(st, f, m, true) ==> bit) && (Switches(st, f, m, false) ==> !bit)
      && (!Switches(st, f, m, true) && !Switches(st, f, m, false) ==> bit == outer)
  {
    hide Applies, Allowed, InListFrom;
    AllowedIs(st, f.level, m);
    LookupIs(st.functions, f.func, m, Miss(true, false));
    if Matches(st.functions, f.func, m) {
      var k := FirstExists(st.functions, f.func, m);
      assert InList(st.functions, f.func, m) == Hit(st.functions[k]);
      assert forall j :: FirstMatch(st.functions, f.func, m, j) ==> Hit(st.functions[j]) == Hit(st.functions[k]);
    }
  }

  lemma BitIs(st: Settings, frames: seq<Frame>, m: Matcher, i: nat)
    requires i < |frames| && RightAt(st, frames, m, i)
    ensures (Switches(st, frames[i], m, true) ==> frames[i].traced) && (Switches(st, frames[i], m, false) ==> !frames[i].traced)
    ensures !Switches(st, frames[i], m, true) && !Switches(st, frames[i], m, false) ==>
      frames[i].traced == Outer(st.functions, frames, i)
  {
    hide Switches, Decide, Outer;
    SwitchIs(st, frames[i], m, Outer(st.functions, frames, i));
  }

  /** The bits that recomputing gives, in terms of the elements of the lists. */
  lemma {:induction false} RematchedByLinks(st: Settings, frames: seq<Frame>, m: Matcher, i: nat)
    requires i < |frames| && forall l :: 0 <= l < |frames| ==> RightAt(st, frames, m, l)
    ensures ByLinks(st, frames, m, i, frames[i].traced)
    decreases i
  {
    hide Switches, RightAt, ByLinks, Default, Quiet;
    BitIs(st, frames, m, i);
    if Switches(st, frames[i], m, true) || Switches(st, frames[i], m, false) {
      SwitchedHere(st, frames, m, i, frames[i].traced);
    } else if i == 0 {
      DefaultHere(st, frames, m);
    } else {
      RematchedByLinks(st, frames, m, i - 1);
      QuietOn(st, frames, m, i, frames[i].traced);
    }
  }

  lemma SwitchedHere(st: Settings, frames: seq<Frame>, m: Matcher, i: nat, on: bool)
    requires i < |frames| && Switches(st, frames[i], m, on)
    ensures ByLinks(st, frames, m, i, on)
  {
    hide Switches;
    assert Quiet(st, frames, m, i + 1, i);
  }

  lemma DefaultHere(st: Settings, frames: seq<Frame>, m: Matcher)
    requires frames != [] && !Switches(st, frames[0], m, true) && !Switches(st, frames[0], m, false)
    ensures ByLinks(st, frames, m, 0, Default(st.functions))
  {
    hide Switches;
    assert Default(st.functions) <==> forall k :: 0 <= k < |st.functions| ==> !st.functions[k].included;
  }

  lemma QuietOn(st: Settings, frames: seq<Frame>, m: Matcher, i: nat, bit: bool)
    requires 0 < i < |frames| && !Switches(st, frames[i], m, true) && !Switches(st, frames[i], m, false)
    requires ByLinks(st, frames, m, i - 1, bit)
    ensures ByLinks(st, frames, m, i, bit)
  {
    hide Switches;
    if j :| 0 <= j <= i - 1 && Switches(st, frames[j], m, bit) && Quiet(st, frames, m, j + 1, i - 1) {
      assert Quiet(st, frames, m, j + 1, i);
    }
  }

  /** Bits are what recomputing gives exactly as the links say. */
  lemma ExactByLinks(st: Settings, frames: seq<Frame>, m: Matcher)
    requires Bits(frames) == Rematched(st, frames, m)
    ensures forall i :: 0 <= i < |frames| ==> ByLinks(st, frames, m, i, frames[i].traced)
  {
    hide ByLinks, RightAt;
    ExactIsLocal(st, frames, m);
    forall i | 0 <= i < |frames|
      ensures ByLinks(st, frames, m, i, frames[i].traced)
    {
      RematchedByLinks(st, frames, m, i);
    }
  }

  /** A function is traced itself: it is allowed, and the first element for it only includes; without one, the list
      has nothing but exclusions, or ends with subtrees and exclusions, and the bit is set. */
  ghost predicate TracedByLinks(st: Settings, func: string, level: nat, m: Matcher, bit: bool) {
    && Allowed(st, level, m)
    && (if Matches(st.functions, func, m)
        then forall k :: FirstMatch(st.functions, func, m, k) ==> st.functions[k].included && !st.functions[k].excluded
        else (OnlyExcluded(st.functions) || SubdirLast(st.functions)) && bit)
  }

  lemma TracedIs(st: Settings, func: string, level: nat, m: Matcher, bit: bool)
    ensures var rule := Decide(st, func, level, m, bit);
      (rule == DoTrace || rule == EnableTrace) == TracedByLinks(st, func, level, m, bit)
  {
    hide Applies, Allowed, InListFrom;
    AllowedIs(st, level, m);
    LookupIs(st.functions, func, m, Miss(true, false));
    if Matches(st.functions, func, m) {
      var k := FirstExists(st.functions, func, m);
      assert InList(st.functions, func, m) == Hit(st.functions[k]);
      assert forall j :: FirstMatch(st.functions, func, m, j) ==> Hit(st.functions[j]) == Hit(st.functions[k]);
    }
  }

  class Tracer {
    const m: Matcher
    var settings: Settings
    var frames: seq<Frame>   // the outermost call first
    var level: nat

    constructor (m: Matcher, st: Settings)
      ensures this.m == m && settings == st && frames == [] && level == 0
    {
      this.m := m;
      settings := st;
      frames := [];
      level := 0;
    }

    ghost predicate Valid()
      reads this
    {
      Consistent(FlagsOf(settings.functions), frames)
    }

    /** The bits are what a full re-match gives. */
    ghost predicate Exact()
      reads this
    {
      Bits(frames) == Rematched(settings, frames, m)
    }

    /** Matches every frame anew. */
    method Rematch()
      modifies this`frames
      ensures SameCalls(frames, old(frames)) && Exact()
      ensures forall i :: 0 <= i < |frames| ==> ByLinks(settings, frames, m, i, frames[i].traced)
    {
      ghost var calls := frames;
      var i := 0;
      while i < |frames|
        invariant 0 <= i <= |frames| && SameCalls(frames, calls)
        invariant Bits(frames[..i]) == Rematched(settings, frames[..i], m)
      {
        var f := frames[i];
        var inherited := if i == 0 then Default(settings.functions) else frames[i - 1].traced;
        var rule := Decide(settings, f.func, f.level, m, inherited);
        ghost var before := frames[..i];
        frames := frames[i := f.(traced := NewBit(rule, inherited))];
        assert frames[..i] == before;
        assert frames[..i + 1][..i] == before;
        i := i + 1;
      }
      assert frames[..i] == frames;
      hide Rematched, Bits, ByLinks, Decide;
      ExactByLinks(settings, frames, m);
    }

    /** Brings the trace bits up to date after the function list changed from one with the flags
        `was`. Returns early where nothing can have changed. */
    method FixTraceFlags(was: ListFlags)
      modifies this`frames
      ensures SameCalls(frames, old(frames))
      ensures Shortcut(was, FlagsOf(settings.functions), old(frames)) ==> frames == old(frames)
      ensures !Shortcut(was, FlagsOf(settings.functions), old(frames)) ==> Exact()
    {
      if |frames| == 0 {
        return;
      }
      var now := FlagsOf(settings.functions);
      var rescan := now.subdir;
      if !rescan {
        if !was.subdir && now.included == was.included {
          return;
        }
        var top := frames[|frames| - 1].traced;
        var i := |frames|;
        while i > 0 && frames[i - 1].traced == top
          invariant 0 <= i <= |frames|
          invariant forall j :: i <= j < |frames| ==> frames[j].traced == top
        {
          i := i - 1;
        }
        if i == 0 && top == !now.included {
          return;
        }
      }
      Rematch();
    }

    /** Entering a function: it is called at the next level, and tells whether it is traced itself. Bits that were
        right stay right, that of the new function included. */
    method Enter(func: string) returns (traced: bool)
      modifies this
      ensures settings == old(settings) && level == old(level) + 1
      ensures |frames| == |old(frames)| + 1 && frames[..|old(frames)|] == old(frames)
      ensures frames[|old(frames)|].func == func && frames[|old(frames)|].level == level
      ensures traced == TracedByLinks(settings, func, level, m, Inherited(settings.functions, old(frames)))
      ensures old(Valid()) ==> Valid()
      ensures old(Exact()) ==> Exact()
      ensures old(Exact()) ==> forall i :: 0 <= i < |frames| ==> ByLinks(settings, frames, m, i, frames[i].traced)
    {
      hide Decide, Rematched, Bits, FlagsOf, Consistent, ByLinks, TracedByLinks;
      var inherited := if |frames| == 0 then Default(settings.functions) else frames[|frames| - 1].traced;
      level := level + 1;
      var rule := Decide(settings, func, level, m, inherited);
      traced := rule == EnableTrace || rule == DoTrace;
      TracedIs(settings, func, level, m, inherited);
      ghost var f := Frame(func, level, NewBit(rule, inherited));
      if Consistent(FlagsOf(settings.functions), frames) {
        EnteredConsistent(settings, frames, f, m);
      }
      if Exact() {
        EnteredExact(settings, frames, f, m);
      }
      frames := frames + [Frame(func, level, NewBit(rule, inherited))];
      if Exact() {
        ExactByLinks(settings, frames, m);
      }
    }

    /** Returning from a function, which tells whether it is traced itself. */
    method Return() returns (traced: bool)
      requires frames != []
      modifies this
      ensures settings == old(settings) && frames == old(frames)[..|old(frames)| - 1]
      ensures var top := old(frames)[|old(frames)| - 1];
        && level == (if top.level == 0 then 0 else top.level - 1)
        && traced == TracedByLinks(settings, top.func, old(level), m, top.traced)
      ensures old(Valid()) ==> Valid()
      ensures old(Exact()) ==> Exact()
    {
      var top := frames[|frames| - 1];
      TracedIs(settings, top.func, level, m, top.traced);
      hide Decide, TracedByLinks, FlagsOf;
      var rule := Decide(settings, top.func, level, m, top.traced);
      traced := rule == EnableTrace || rule == DoTrace;
      level := if top.level == 0 then 0 else top.level - 1;
      frames := frames[..|frames| - 1];
    }

    /** A push, a pop or a change of the current settings. The control string tells whether the
        function list may have changed; if not, only then are the trace bits left alone. */
    method Configure(st: Settings, functionsChanged: bool)
      requires Valid()
      requires !functionsChanged ==> FlagsOf(st.functions) == FlagsOf(settings.functions)
      modifies this
      ensures settings == st && level == old(level) && Valid() && SameCalls(frames, old(frames))
      ensures !functionsChanged ==> frames == old(frames)
      ensures functionsChanged ==> Exact()
      ensures !FlagsOf(st.functions).subdir ==> Exact()
    {
      var was := FlagsOf(settings.functions);
      settings := st;
      ghost var frames0 := frames;
      if functionsChanged {
        FixTraceFlags(was);
        if Shortcut(was, FlagsOf(st.functions), frames0) {
          ShortcutIsExact(st, was, frames, m);
        }
        ExactIsConsistent(st, frames, m);
      } else if !FlagsOf(st.functions).subdir {
        NoRuleAllDefault(st, frames, m);
        SameBits(Bits(frames), Rematched(st, frames, m));
      }
    }
  }

  /** When the trace bits are left alone. */
  predicate Shortcut(was: ListFlags, now: ListFlags, frames: seq<Frame>) {
    || frames == []
    || (!now.subdir &&
        (|| (!was.subdir && now.included == was.included)
         || (forall i :: 0 <= i < |frames| ==> frames[i].traced == !now.included)))
  }

  /** Every early return leaves the bits right, for bits that were consistent with the old list. */
  lemma ShortcutIsExact(st: Settings, was: ListFlags, frames: seq<Frame>, m: Matcher)
    requires Consistent(was, frames) && Shortcut(was, FlagsOf(st.functions), frames)
    ensures Bits(frames) == Rematched(st, frames, m)
  {
    if frames != [] {
      ShortcutRightWhen(st, was, frames, m);
    }
  }

  /** Whatever the bits were, an early return is right exactly when every bit is the new default. */
  lemma ShortcutRightWhen(st: Settings, was: ListFlags, frames: seq<Frame>, m: Matcher)
    requires Shortcut(was, FlagsOf(st.functions), frames)
    ensures Bits(frames) == Rematched(st, frames, m)
            <==> forall i :: 0 <= i < |frames| ==> frames[i].traced == Default(st.functions)
  {
    if frames != [] {
      NoRuleAllDefault(st, frames, m);
      if forall i :: 0 <= i < |frames| ==> frames[i].traced == Default(st.functions) {
        SameBits(Bits(frames), Rematched(st, frames, m));
      } else {
        var i :| 0 <= i < |frames| && frames[i].traced != Default(st.functions);
        assert Bits(frames)[i] != Rematched(st, frames, m)[i];
      }
    }
  }

  /** Changing the global settings under a running call stack does not fix the bits. A later change
      to another list of included functions then takes the shortcut, and leaves wrong bits. */
  lemma GlobalChangeBreaksShortcut(m: Matcher)
    ensures var frames := [Frame("f", 1, true)];
            var before := Settings([], [], "dbug", 0);
            var global := before.(functions := [Link("g", true, false, false)]);
            var after := before.(functions := [Link("h", true, false, false)]);
            && Bits(frames) == Rematched(before, frames, m)
            && Shortcut(FlagsOf(global.functions), FlagsOf(after.functions), frames)
            && Bits(frames) != Rematched(after, frames, m)
  {
    var frames := [Frame("f", 1, true)];
    var before := Settings([], [], "dbug", 0);
    var global := before.(functions := [Link("g", true, false, false)]);
    var after := before.(functions := [Link("h", true, false, false)]);
    NoRuleAllDefault(before, frames, m);
    SameBits(Bits(frames), Rematched(before, frames, m));
    assert global.functions[0].included && after.functions[0].included;
    ShortcutRightWhen(after, FlagsOf(global.functions), frames, m);
    assert frames[0].traced;
  }
}
