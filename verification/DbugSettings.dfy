/** The stack of dbug settings: entries share lists with the entry below until they change them,
    and share output files through reference counts.
  */
module DbugSettingsStack {

  datatype Ptr = Null | Ref(id: nat)

  /** Keyword, function and process lists, in this order. */
  const KINDS: nat := 3

  datatype FileRef = NoFile | Std(isError: bool) | Shared(id: nat)

  /** One settings entry: three lists, an output file and the scalar settings. */
  datatype Entry = Entry(lists: seq<Ptr>, file: FileRef, scalars: int)

  const BLANK := Entry([Null, Null, Null], NoFile, 0)

  /** The order of a list is not modelled: copying a list reverses it. */
  type List = multiset<string>

  /** The control string, field by field. */
  datatype Field =
    | Clear(kind: nat)                         // as in "-d"
    | Edit(kind: nat, change: List -> List)    // as in "+d,name" or "-d,name"
    | OutputTo(target: Output)
    | Scalar(update: int -> int)

  datatype Output = ToStderr | ToStdout | ToFile(opens: bool)

  ghost predicate WellTyped(stack: seq<Entry>) {
    stack != [] && forall i :: 0 <= i < |stack| ==> |stack[i].lists| == KINDS
  }

  function At(stack: seq<Entry>, i: nat, k: nat): Ptr
    requires i < |stack| && k < |stack[i].lists|
  {
    stack[i].lists[k]
  }

  /** The lists that the stack refers to. */
  ghost function Refs(stack: seq<Entry>): set<nat>
    requires WellTyped(stack)
  {
    set i: nat, k: nat | i < |stack| && k < KINDS && At(stack, i, k).Ref? :: At(stack, i, k).id
  }

  /** A list belongs to one kind and to a run of neighbouring entries; the bottom entry, the global
      settings, shares with nobody. */
  ghost predicate Disjoint(stack: seq<Entry>)
    requires WellTyped(stack)
  {
    && (forall i: nat, k: nat, l: nat :: i < |stack| && k < KINDS && l < KINDS && At(stack, i, k) == At(stack, i, l) && At(stack, i, k).Ref? ==> k == l)
    && (forall i: nat, j: nat, k: nat, l: nat :: i < j < |stack| && k < KINDS && l < KINDS && At(stack, i, k) == At(stack, j, l) && At(stack, i, k).Ref? ==>
          k == l && i >= 1 && At(stack, j - 1, l) == At(stack, j, l))
  }

  /** The number of entries that refer to file `id`. */
  ghost function Uses(stack: seq<Entry>, id: nat): nat {
    if stack == [] then 0
    else Uses(stack[..|stack| - 1], id) + if stack[|stack| - 1].file == Shared(id) then 1 else 0
  }

  ghost predicate CountsRight(stack: seq<Entry>, used: map<nat, nat>) {
    forall id :: (id in used <==> Uses(stack, id) > 0) && (id in used ==> used[id] == Uses(stack, id))
  }

  lemma {:induction false} UsesAfterUpdate(stack: seq<Entry>, at: nat, e: Entry, id: nat)
    requires at < |stack|
    ensures Uses(stack[at := e], id) + (if stack[at].file == Shared(id) then 1 else 0)
            == Uses(stack, id) + (if e.file == Shared(id) then 1 else 0)
  {
    if at < |stack| - 1 {
      assert stack[at := e][..|stack| - 1] == stack[..|stack| - 1][at := e];
      UsesAfterUpdate(stack[..|stack| - 1], at, e, id);
    } else {
      assert stack[at := e][..|stack| - 1] == stack[..|stack| - 1];
    }
  }

  /** Whether the entry shares its list of kind `k` with the entry below. */
  predicate IsShared(stack: seq<Entry>, at: nat, k: nat)
    requires at < |stack| && k < |stack[at].lists| && (at > 0 ==> k < |stack[at - 1].lists|)
  {
    at > 0 && At(stack, at - 1, k) == At(stack, at, k)
  }

  /** A list that is not shared with the entry below is not shared at all, for the entries that
      are ever changed: the top and the bottom. */
  lemma SoleOwner(stack: seq<Entry>, at: nat, k: nat)
    requires WellTyped(stack) && Disjoint(stack) && at < |stack| && k < KINDS
    requires (at == |stack| - 1 || at == 0) && !IsShared(stack, at, k) && At(stack, at, k).Ref?
    ensures forall i: nat, l: nat :: i < |stack| && l < KINDS && At(stack, i, l) == At(stack, at, k) ==> i == at && l == k
  {
  }

  function WithPtr(stack: seq<Entry>, at: nat, k: nat, p: Ptr): seq<Entry>
    requires at < |stack| && k < |stack[at].lists|
  {
    stack[at := stack[at].(lists := stack[at].lists[k := p])]
  }

  /** Dropping a list from the top or bottom entry. */
  lemma Dropped(stack: seq<Entry>, at: nat, k: nat)
    requires WellTyped(stack) && Disjoint(stack) && at < |stack| && k < KINDS && (at == |stack| - 1 || at == 0)
    ensures var s := WithPtr(stack, at, k, Null);
            && WellTyped(s) && Disjoint(s)
            && Refs(s) == if IsShared(stack, at, k) || At(stack, at, k).Null? then Refs(stack)
                          else Refs(stack) - {At(stack, at, k).id}
  {
    var s := WithPtr(stack, at, k, Null);
    var p := At(stack, at, k);
    forall i: nat, l: nat | i < |s| && l < KINDS
      ensures At(s, i, l) == if i == at && l == k then Null else At(stack, i, l)
    {
    }
    if p.Ref? && !IsShared(stack, at, k) {
      SoleOwner(stack, at, k);
    }
    forall id | id in Refs(stack) && !(p.Ref? && !IsShared(stack, at, k) && id == p.id)
      ensures id in Refs(s)
    {
      var i: nat, l: nat :| i < |stack| && l < KINDS && At(stack, i, l) == Ref(id);
      if i == at && l == k {
        assert At(s, at - 1, k) == p;
      } else {
        assert At(s, i, l) == Ref(id);
      }
    }
  }

  /** Giving the top or bottom entry a new list of its own. */
  lemma Placed(stack: seq<Entry>, at: nat, k: nat, id: nat)
    requires WellTyped(stack) && Disjoint(stack) && at < |stack| && k < KINDS && (at == |stack| - 1 || at == 0)
    requires At(stack, at, k).Null? && id !in Refs(stack)
    ensures var s := WithPtr(stack, at, k, Ref(id));
            WellTyped(s) && Disjoint(s) && Refs(s) == Refs(stack) + {id}
  {
    var s := WithPtr(stack, at, k, Ref(id));
    forall i: nat, l: nat | i < |s| && l < KINDS
      ensures At(s, i, l) == if i == at && l == k then Ref(id) else At(stack, i, l)
      ensures At(stack, i, l) != Ref(id)
    {
    }
    forall x | x in Refs(stack) + {id}
      ensures x in Refs(s)
    {
      if x == id {
        assert At(s, at, k) == Ref(id);
      } else {
        var i: nat, l: nat :| i < |stack| && l < KINDS && At(stack, i, l) == Ref(x);
        assert At(s, i, l) == Ref(x);
      }
    }
  }

  /** What a list pointer stands for. */
  ghost function Contents(live: map<nat, List>, p: Ptr): List {
    if p.Ref? && p.id in live then live[p.id] else multiset{}
  }

  /** The contents of the three lists of an entry. */
  ghost function ListsOf(e: Entry, live: map<nat, List>): (r: seq<List>)
    requires |e.lists| == KINDS
    ensures |r| == KINDS && forall k :: 0 <= k < KINDS ==> r[k] == Contents(live, e.lists[k])
  {
    [Contents(live, e.lists[0]), Contents(live, e.lists[1]), Contents(live, e.lists[2])]
  }

  /** The two entries stand for the same settings. */
  ghost predicate LooksLike(e: Entry, live: map<nat, List>, e': Entry, live': map<nat, List>) {
    && e.file == e'.file && e.scalars == e'.scalars && |e.lists| == |e'.lists|
    && forall k :: 0 <= k < |e.lists| ==> Contents(live, e.lists[k]) == Contents(live', e'.lists[k])
  }

  /** Entries other than `at` stand for what they stood for. */
  ghost predicate OthersKept(stack: seq<Entry>, live: map<nat, List>, stack': seq<Entry>, live': map<nat, List>, at: nat) {
    |stack'| == |stack| && forall i :: 0 <= i < |stack| && i != at ==> LooksLike(stack[i], live, stack'[i], live')
  }

  lemma KeptSelf(stack: seq<Entry>, live: map<nat, List>, at: nat)
    ensures OthersKept(stack, live, stack, live, at)
  {
  }

  lemma KeptTwice(s0: seq<Entry>, l0: map<nat, List>, s1: seq<Entry>, l1: map<nat, List>, s2: seq<Entry>, l2: map<nat, List>, at: nat)
    requires OthersKept(s0, l0, s1, l1, at) && OthersKept(s1, l1, s2, l2, at)
    ensures OthersKept(s0, l0, s2, l2, at)
  {
    forall i | 0 <= i < |s0| && i != at
      ensures LooksLike(s0[i], l0, s2[i], l2)
    {
      assert LooksLike(s0[i], l0, s1[i], l1) && LooksLike(s1[i], l1, s2[i], l2);
    }
  }

  /** The references and the allocated lists agree, and so do the files and their counts. */
  ghost predicate Sound(stack: seq<Entry>, live: map<nat, List>, used: map<nat, nat>) {
    WellTyped(stack) && Disjoint(stack) && live.Keys == Refs(stack) && CountsRight(stack, used)
  }

  lemma {:induction false} SameUses(a: seq<Entry>, b: seq<Entry>, id: nat)
    requires |a| == |b| && forall i :: 0 <= i < |a| ==> a[i].file == b[i].file
    ensures Uses(a, id) == Uses(b, id)
  {
    if a != [] {
      SameUses(a[..|a| - 1], b[..|b| - 1], id);
    }
  }

  lemma SameCounts(a: seq<Entry>, b: seq<Entry>, used: map<nat, nat>)
    requires |a| == |b| && (forall i :: 0 <= i < |a| ==> a[i].file == b[i].file) && CountsRight(a, used)
    ensures CountsRight(b, used)
  {
    forall id
      ensures Uses(a, id) == Uses(b, id)
    {
      SameUses(a, b, id);
    }
  }

  /** The allocated lists after an entry lets go of one. */
  function Freed(stack: seq<Entry>, live: map<nat, List>, at: nat, k: nat): map<nat, List>
    requires at < |stack| && k < |stack[at].lists| && (at > 0 ==> k < |stack[at - 1].lists|)
  {
    if !IsShared(stack, at, k) && At(stack, at, k).Ref? then live - {At(stack, at, k).id} else live
  }

  lemma ReleaseKeeps(stack: seq<Entry>, live: map<nat, List>, used: map<nat, nat>, at: nat, k: nat)
    requires Sound(stack, live, used) && at < |stack| && k < KINDS && (at == |stack| - 1 || at == 0)
    ensures var s := WithPtr(stack, at, k, Null); var l := Freed(stack, live, at, k);
            Sound(s, l, used) && OthersKept(stack, live, s, l, at)
  {
    hide Uses, CountsRight;
    var s := WithPtr(stack, at, k, Null);
    var l := Freed(stack, live, at, k);
    Dropped(stack, at, k);
    SameCounts(stack, s, used);
    if !IsShared(stack, at, k) && At(stack, at, k).Ref? {
      SoleOwner(stack, at, k);
      forall i, j | 0 <= i < |stack| && i != at && 0 <= j < KINDS
        ensures Contents(l, stack[i].lists[j]) == Contents(live, stack[i].lists[j])
      {
        assert At(stack, i, j) != At(stack, at, k);
      }
    }
  }

  /** A new list for an entry that has none. */
  lemma PlaceKeeps(stack: seq<Entry>, live: map<nat, List>, used: map<nat, nat>, at: nat, k: nat, id: nat, c: List)
    requires Sound(stack, live, used) && at < |stack| && k < KINDS && (at == |stack| - 1 || at == 0)
    requires At(stack, at, k).Null? && id !in live
    ensures var s := WithPtr(stack, at, k, Ref(id)); var l := live[id := c];
            Sound(s, l, used) && OthersKept(stack, live, s, l, at)
  {
    hide Uses, CountsRight;
    var s := WithPtr(stack, at, k, Ref(id));
    var l := live[id := c];
    Placed(stack, at, k, id);
    SameCounts(stack, s, used);
    forall i, j | 0 <= i < |stack| && 0 <= j < KINDS
      ensures Contents(l, stack[i].lists[j]) == Contents(live, stack[i].lists[j])
    {
      if stack[i].lists[j].Ref? {
        assert At(stack, i, j).id in Refs(stack);
      }
    }
  }

  /** Changing a list in place, when no other entry uses it. */
  lemma ChangeKeeps(stack: seq<Entry>, live: map<nat, List>, used: map<nat, nat>, at: nat, k: nat, c: List)
    requires Sound(stack, live, used) && at < |stack| && k < KINDS && (at == |stack| - 1 || at == 0)
    requires At(stack, at, k).Ref? && !IsShared(stack, at, k)
    ensures var l := live[At(stack, at, k).id := c];
            Sound(stack, l, used) && OthersKept(stack, live, stack, l, at)
  {
    hide Uses, CountsRight;
    var p := At(stack, at, k);
    var l := live[p.id := c];
    SoleOwner(stack, at, k);
    assert p.id in Refs(stack);
    forall i, j | 0 <= i < |stack| && i != at && 0 <= j < KINDS
      ensures Contents(l, stack[i].lists[j]) == Contents(live, stack[i].lists[j])
    {
      assert At(stack, i, j) != p;
    }
  }

  /** What the lists of an entry become when one of them is dropped, placed or changed. */
  lemma ListsAfter(stack: seq<Entry>, live: map<nat, List>, at: nat, k: nat, p: Ptr, live': map<nat, List>, c: List)
    requires WellTyped(stack) && Disjoint(stack) && at < |stack| && k < KINDS
    requires Contents(live', p) == c
    requires forall id :: At(stack, at, k) != Ref(id) && p != Ref(id) ==> Contents(live', Ref(id)) == Contents(live, Ref(id))
    requires p.Ref? && p != At(stack, at, k) ==> p.id !in Refs(stack)
    ensures ListsOf(WithPtr(stack, at, k, p)[at], live') == ListsOf(stack[at], live)[k := c]
  {
    var e := WithPtr(stack, at, k, p)[at];
    forall j: nat | j < KINDS
      ensures ListsOf(e, live')[j] == ListsOf(stack[at], live)[k := c][j]
    {
      if j != k {
        assert At(stack, at, j) == e.lists[j];
        if e.lists[j].Ref? {
          assert At(stack, at, j).id in Refs(stack);
        }
      }
    }
  }

  lemma DropLists(stack: seq<Entry>, live: map<nat, List>, used: map<nat, nat>, at: nat, k: nat)
    requires Sound(stack, live, used) && at < |stack| && k < KINDS
    ensures ListsOf(WithPtr(stack, at, k, Null)[at], Freed(stack, live, at, k)) == ListsOf(stack[at], live)[k := multiset{}]
  {
    hide CountsRight;
    ListsAfter(stack, live, at, k, Null, Freed(stack, live, at, k), multiset{});
  }

  lemma PlaceLists(stack: seq<Entry>, live: map<nat, List>, used: map<nat, nat>, at: nat, k: nat, id: nat, c: List)
    requires Sound(stack, live, used) && at < |stack| && k < KINDS && id !in live
    ensures ListsOf(WithPtr(stack, at, k, Ref(id))[at], live[id := c]) == ListsOf(stack[at], live)[k := c]
  {
    hide CountsRight;
    ListsAfter(stack, live, at, k, Ref(id), live[id := c], c);
  }

  lemma ChangeLists(stack: seq<Entry>, live: map<nat, List>, used: map<nat, nat>, at: nat, k: nat, c: List)
    requires Sound(stack, live, used) && at < |stack| && k < KINDS && At(stack, at, k).Ref?
    ensures ListsOf(stack[at], live[At(stack, at, k).id := c]) == ListsOf(stack[at], live)[k := c]
  {
    hide CountsRight;
    ListsAfter(stack, live, at, k, At(stack, at, k), live[At(stack, at, k).id := c], c);
    assert WithPtr(stack, at, k, At(stack, at, k))[at] == stack[at];
  }

  // ----- output files -----

  /** One more, and one less, reference to a file; a file without references is closed. */
  function OneMore(used: map<nat, nat>, f: FileRef): map<nat, nat> {
    if f.Shared? then used[f.id := (if f.id in used then used[f.id] else 0) + 1] else used
  }

  function OneLess(used: map<nat, nat>, f: FileRef): map<nat, nat> {
    if f.Shared? && f.id in used then
      if used[f.id] <= 1 then used - {f.id} else used[f.id := used[f.id] - 1]
    else used
  }

  function WithFile(stack: seq<Entry>, at: nat, f: FileRef): seq<Entry>
    requires at < |stack|
  {
    stack[at := stack[at].(file := f)]
  }

  lemma FileSwitched(stack: seq<Entry>, used: map<nat, nat>, at: nat, f: FileRef)
    requires at < |stack| && CountsRight(stack, used)
    ensures CountsRight(WithFile(stack, at, f), OneLess(OneMore(used, f), stack[at].file))
  {
    var s := WithFile(stack, at, f);
    var u := OneLess(OneMore(used, f), stack[at].file);
    forall id
      ensures (id in u <==> Uses(s, id) > 0) && (id in u ==> u[id] == Uses(s, id))
    {
      UsesAfterUpdate(stack, at, s[at], id);
    }
  }

  /** Entries with the same lists refer to the same lists. */
  lemma SameLists(a: seq<Entry>, b: seq<Entry>)
    requires WellTyped(a) && Disjoint(a) && |a| == |b| && forall i :: 0 <= i < |a| ==> b[i].lists == a[i].lists
    ensures WellTyped(b) && Disjoint(b) && Refs(b) == Refs(a)
  {
    forall i: nat, k: nat | i < |a| && k < KINDS
      ensures At(b, i, k) == At(a, i, k)
    {
    }
    forall id | id in Refs(a)
      ensures id in Refs(b)
    {
      var i: nat, k: nat :| i < |a| && k < KINDS && At(a, i, k) == Ref(id);
      assert At(b, i, k) == Ref(id);
    }
    forall id | id in Refs(b)
      ensures id in Refs(a)
    {
      var i: nat, k: nat :| i < |a| && k < KINDS && At(b, i, k) == Ref(id);
      assert At(a, i, k) == Ref(id);
    }
  }

  lemma FileKeeps(stack: seq<Entry>, live: map<nat, List>, used: map<nat, nat>, at: nat, f: FileRef)
    requires Sound(stack, live, used) && at < |stack|
    ensures var s := WithFile(stack, at, f);
            Sound(s, live, OneLess(OneMore(used, f), stack[at].file)) && OthersKept(stack, live, s, live, at)
  {
    FileSwitched(stack, used, at, f);
    SameLists(stack, WithFile(stack, at, f));
  }

  lemma ScalarKeeps(stack: seq<Entry>, live: map<nat, List>, used: map<nat, nat>, at: nat, x: int)
    requires Sound(stack, live, used) && at < |stack|
    ensures var s := stack[at := stack[at].(scalars := x)]; Sound(s, live, used) && OthersKept(stack, live, s, live, at)
  {
    var s := stack[at := stack[at].(scalars := x)];
    SameLists(stack, s);
    SameCounts(stack, s, used);
  }

  // ----- pushing and popping -----

  lemma Pushed(stack: seq<Entry>, live: map<nat, List>, used: map<nat, nat>)
    requires Sound(stack, live, used)
    ensures Sound(stack + [BLANK], live, used)
  {
    var s := stack + [BLANK];
    forall i: nat, k: nat | i < |s| && k < KINDS
      ensures At(s, i, k) == if i < |stack| then At(stack, i, k) else Null
    {
    }
    forall id | id in Refs(stack)
      ensures id in Refs(s)
    {
      var i: nat, k: nat :| i < |stack| && k < KINDS && At(stack, i, k) == Ref(id);
      assert At(s, i, k) == Ref(id);
    }
    assert s[..|s| - 1] == stack;
  }

  lemma Popped(stack: seq<Entry>, live: map<nat, List>, used: map<nat, nat>)
    requires Sound(stack, live, used) && |stack| > 1 && stack[|stack| - 1].lists == [Null, Null, Null]
    requires !stack[|stack| - 1].file.Shared?
    ensures Sound(stack[..|stack| - 1], live, used)
  {
    var s := stack[..|stack| - 1];
    forall i: nat, k: nat | i < |s| && k < KINDS
      ensures At(s, i, k) == At(stack, i, k)
    {
    }
    forall id | id in Refs(stack)
      ensures id in Refs(s)
    {
      var i: nat, k: nat :| i < |stack| && k < KINDS && At(stack, i, k) == Ref(id);
      assert At(s, i, k) == Ref(id);
    }
    forall id
      ensures Uses(s, id) == Uses(stack, id)
    {
    }
  }

  /** A new entry takes over the lists of the entry below, which is not the global one. */
  lemma Inherited(stack: seq<Entry>, live: map<nat, List>, used: map<nat, nat>)
    requires Sound(stack, live, used) && |stack| > 2 && stack[|stack| - 1].lists == [Null, Null, Null]
    ensures var top := |stack| - 1; var s := stack[top := stack[top].(lists := stack[top - 1].lists)];
            Sound(s, live, used) && OthersKept(stack, live, s, live, top)
  {
    hide Uses, CountsRight;
    var top := |stack| - 1;
    var s := stack[top := stack[top].(lists := stack[top - 1].lists)];
    forall i: nat, k: nat | i < |s| && k < KINDS
      ensures At(s, i, k) == if i < top then At(stack, i, k) else At(stack, top - 1, k)
    {
    }
    forall id | id in Refs(stack)
      ensures id in Refs(s)
    {
      var i: nat, k: nat :| i < |stack| && k < KINDS && At(stack, i, k) == Ref(id);
      assert At(s, i, k) == Ref(id);
    }
    forall id | id in Refs(s)
      ensures id in Refs(stack)
    {
      var i: nat, k: nat :| i < |s| && k < KINDS && At(s, i, k) == Ref(id);
      assert At(stack, if i < top then i else top - 1, k) == Ref(id);
    }
    SameCounts(stack, s, used);
  }

  /** Only the list of kind `k` of entry `at` differs. */
  ghost predicate OnlyList(stack: seq<Entry>, stack': seq<Entry>, at: nat, k: nat)
    requires at < |stack|
  {
    && |stack'| == |stack| && (forall i :: 0 <= i < |stack| && i != at ==> stack'[i] == stack[i])
    && stack'[at].file == stack[at].file && stack'[at].scalars == stack[at].scalars
    && |stack'[at].lists| == |stack[at].lists|
    && forall j :: 0 <= j < |stack[at].lists| && j != k ==> stack'[at].lists[j] == stack[at].lists[j]
  }

  /** Whatever lists the entry has, it does not share them. */
  ghost predicate OwnsAll(stack: seq<Entry>, at: nat)
    requires WellTyped(stack) && at < |stack|
  {
    forall k :: 0 <= k < KINDS ==> At(stack, at, k).Null? || !IsShared(stack, at, k)
  }

  /** What a control string does to the lists and the scalar settings of an entry. */
  function EditLists(lists: seq<List>, fields: seq<Field>): (r: seq<List>)
    ensures |r| == |lists|
  {
    if fields == [] then lists
    else
      var before := EditLists(lists, fields[..|fields| - 1]);
      match fields[|fields| - 1]
      case Clear(k) => if k < |before| then before[k := multiset{}] else before
      case Edit(k, change) => if k < |before| then before[k := change(before[k])] else before
      case _ => before
  }

  function EditScalars(x: int, fields: seq<Field>): int {
    if fields == [] then x
    else
      var before := EditScalars(x, fields[..|fields| - 1]);
      match fields[|fields| - 1]
      case Scalar(update) => update(before)
      case _ => before
  }

  /** The lists and scalars that parsing starts from: none, those of the entry below for an entry
      that was just pushed, or the entry's own. */
  ghost function StartLists(stack: seq<Entry>, live: map<nat, List>, at: nat, relative: bool): seq<List>
    requires WellTyped(stack) && at < |stack|
  {
    if !relative || (stack[at].file == NoFile && at == 0) then [multiset{}, multiset{}, multiset{}]
    else if stack[at].file == NoFile then ListsOf(stack[at - 1], live)
    else ListsOf(stack[at], live)
  }

  function StartScalars(stack: seq<Entry>, at: nat, relative: bool): int
    requires at < |stack|
  {
    if !relative || (stack[at].file == NoFile && at == 0) then 0
    else if stack[at].file == NoFile then stack[at - 1].scalars
    else stack[at].scalars
  }

  function StartFile(stack: seq<Entry>, at: nat, relative: bool): FileRef
    requires at < |stack|
  {
    if !relative || (stack[at].file == NoFile && at == 0) then Std(true)
    else if stack[at].file == NoFile then stack[at - 1].file
    else stack[at].file
  }

  /** The output file after a field; a file that opens is one that no entry uses yet. */
  ghost predicate EndFile(was: FileRef, f: Field, used: map<nat, nat>, now: FileRef) {
    if !f.OutputTo? || f.target == ToFile(false) then now == was
    else match f.target
         case ToStderr => now == Std(true)
         case ToStdout => now == Std(false)
         case ToFile(_) => now.Shared? && now.id !in used
  }

  class SettingsStack {
    var stack: seq<Entry>            // the global settings at the bottom
    var live: map<nat, List>         // the lists that are allocated
    var used: map<nat, nat>          // the open files, with their reference counts
    var fresh': nat                  // no list or file has this number or a larger one

    /** Every allocated list is referred to by some entry, every reference is to an allocated list,
        and every file count is the number of entries that use the file. */
    ghost predicate Valid()
      reads this
    {
      && Sound(stack, live, used)
      && (forall id :: id in live ==> id < fresh') && (forall id :: id in used ==> id < fresh')
    }

    ghost predicate Changeable(at: nat)
      reads this
    {
      at < |stack| && (at == |stack| - 1 || at == 0)
    }

    constructor ()
      ensures Valid() && stack == [Entry([Null, Null, Null], Std(true), 0)]
    {
      stack := [Entry([Null, Null, Null], Std(true), 0)];
      live, used, fresh' := map[], map[], 0;
      new;
      assert stack[..0] == [];
    }

    /** Lets go of a list: frees it unless the entry below still uses it. */
    method Release(at: nat, k: nat)
      requires Valid() && Changeable(at) && k < KINDS
      modifies this`stack, this`live
      ensures Valid() && OthersKept(old(stack), old(live), stack, live, at)
      ensures stack == WithPtr(old(stack), at, k, Null)
      ensures live == Freed(old(stack), old(live), at, k)
      ensures |stack[at].lists| == KINDS == |old(stack)[at].lists|
      ensures ListsOf(stack[at], live) == ListsOf(old(stack)[at], old(live))[k := multiset{}]
    {
      hide Sound, OthersKept, ListsOf, LooksLike;
      SoundTyped(stack, live, used);
      ReleaseKeeps(stack, live, used, at, k);
      DropLists(stack, live, used, at, k);
      var p := stack[at].lists[k];
      if !IsShared(stack, at, k) && p.Ref? {
        live := live - {p.id};
      }
      stack := stack[at := stack[at].(lists := stack[at].lists[k := Null])];
    }

    /** Gives the entry a copy of its own of a list that it shares. */
    method Unshare(at: nat, k: nat)
      requires Valid() && Changeable(at) && k < KINDS
      modifies this`stack, this`live, this`fresh'
      ensures Valid() && OthersKept(old(stack), old(live), stack, live, at)
      ensures At(stack, at, k).Ref? ==> !IsShared(stack, at, k)
      ensures OnlyList(old(stack), stack, at, k) && |stack[at].lists| == KINDS == |old(stack)[at].lists|
      ensures ListsOf(stack[at], live) == ListsOf(old(stack)[at], old(live))
    {
      hide Sound, OthersKept, Freed, ListsOf, LooksLike;
      SoundTyped(stack, live, used);
      KeptSelf(stack, live, at);
      if IsShared(stack, at, k) && stack[at].lists[k].Ref? {
        ghost var s0, l0 := stack, live;
        ghost var below := stack[at - 1].lists[k];
        assert At(stack, at, k) == stack[at].lists[k];
        var c := live[stack[at].lists[k].id];
        Release(at, k);
        PlaceKeeps(stack, live, used, at, k, fresh', c);
        PlaceLists(stack, live, used, at, k, fresh', c);
        KeptTwice(s0, l0, stack, live, WithPtr(stack, at, k, Ref(fresh')), live[fresh' := c], at);
        stack := WithPtr(stack, at, k, Ref(fresh'));
        live := live[fresh' := c];
        fresh' := fresh' + 1;
      }
    }

    /** Changes a list of the entry in place; an empty list is no list. */
    method Change(at: nat, k: nat, change: List -> List)
      requires Valid() && Changeable(at) && k < KINDS
      requires At(stack, at, k).Ref? ==> !IsShared(stack, at, k)
      modifies this`stack, this`live, this`fresh'
      ensures Valid() && OthersKept(old(stack), old(live), stack, live, at)
      ensures At(stack, at, k).Ref? ==> !IsShared(stack, at, k)
      ensures OnlyList(old(stack), stack, at, k) && |stack[at].lists| == KINDS == |old(stack)[at].lists|
      ensures var was := ListsOf(old(stack)[at], old(live)); ListsOf(stack[at], live) == was[k := change(was[k])]
    {
      hide Sound, OthersKept, Freed, ListsOf, LooksLike;
      SoundTyped(stack, live, used);
      var p := stack[at].lists[k];
      assert At(stack, at, k) == p;
      var c := change(if p.Ref? then live[p.id] else multiset{});
      if c == multiset{} {
        Release(at, k);
      } else if p.Ref? {
        ChangeKeeps(stack, live, used, at, k, c);
        ChangeLists(stack, live, used, at, k, c);
        live := live[p.id := c];
      } else {
        assert at > 0 && At(stack, at - 1, k).Ref? ==> At(stack, at - 1, k).id in live;
        PlaceKeeps(stack, live, used, at, k, fresh', c);
        PlaceLists(stack, live, used, at, k, fresh', c);
        stack := WithPtr(stack, at, k, Ref(fresh'));
        live := live[fresh' := c];
        fresh' := fresh' + 1;
      }
    }

    /** Switches the output file of the entry; the old file is closed with its last reference. */
    method SwitchFile(at: nat, f: FileRef)
      requires Valid() && at < |stack| && (f.Shared? ==> f.id < fresh')
      modifies this`stack, this`used
      ensures Valid() && OthersKept(old(stack), old(live), stack, live, at)
      ensures stack == WithFile(old(stack), at, f)
      ensures used == OneLess(OneMore(old(used), f), old(stack)[at].file)
    {
      hide Sound, OthersKept;
      FileKeeps(stack, live, used, at, f);
      used := OneLess(OneMore(used, f), stack[at].file);
      stack := stack[at := stack[at].(file := f)];
    }

    method SetScalars(at: nat, x: int)
      requires Valid() && at < |stack|
      modifies this`stack
      ensures Valid() && OthersKept(old(stack), old(live), stack, live, at)
      ensures stack == old(stack)[at := old(stack)[at].(scalars := x)]
    {
      hide Sound, OthersKept;
      ScalarKeeps(stack, live, used, at, x);
      stack := stack[at := stack[at].(scalars := x)];
    }

    /** Lets go of everything the entry holds. */
    method FreeState(at: nat)
      requires Valid() && Changeable(at)
      modifies this`stack, this`live, this`used
      ensures Valid() && OthersKept(old(stack), old(live), stack, live, at)
      ensures |stack| == |old(stack)| && stack[at].lists == [Null, Null, Null] && stack[at].file == NoFile
    {
      hide Sound, OthersKept, LooksLike;
      ghost var s0, l0 := stack, live;
      SoundTyped(stack, live, used);
      KeptSelf(stack, live, at);
      KeptLength(s0, l0, stack, live, at);
      var k := 0;
      while k < KINDS
        invariant 0 <= k <= KINDS && Valid() && OthersKept(s0, l0, stack, live, at) && |stack| == |s0| && |stack[at].lists| == KINDS
        invariant forall j :: 0 <= j < k ==> stack[at].lists[j] == Null
      {
        ghost var s1, l1 := stack, live;
        Release(at, k);
        KeptTwice(s0, l0, s1, l1, stack, live, at);
        k := k + 1;
      }
      ghost var s1, l1 := stack, live;
      SwitchFile(at, NoFile);
      KeptTwice(s0, l0, s1, l1, stack, live, at);
    }

    /** The first part of parsing a control string: a clean start, or what the entry below has. */
    method Begin(at: nat, relative: bool)
      requires Valid() && Changeable(at)
      requires stack[at].file == NoFile ==> stack[at].lists == [Null, Null, Null]
      modifies this
      ensures Valid() && OthersKept(old(stack), old(live), stack, live, at)
      ensures !relative ==> forall k :: 0 <= k < KINDS ==> At(stack, at, k).Null?
      ensures (at > 0 ==> old(stack)[at - 1].file != NoFile) ==> stack[at].file != NoFile
      ensures |stack| == |old(stack)| && WellTyped(old(stack)) && WellTyped(stack)
      ensures ListsOf(stack[at], live) == StartLists(old(stack), old(live), at, relative)
      ensures stack[at].scalars == StartScalars(old(stack), at, relative)
      ensures stack[at].file == StartFile(old(stack), at, relative)
    {
      hide Sound, OthersKept, LooksLike;
      ghost var s0, l0 := stack, live;
      SoundTyped(stack, live, used);
      KeptSelf(stack, live, at);
      if !relative || (stack[at].file == NoFile && at == 0) {
        FreeState(at);
        KeptLength(s0, l0, stack, live, at);
        ghost var s1, l1 := stack, live;
        SetScalars(at, 0);
        KeptTwice(s0, l0, s1, l1, stack, live, at);
        ghost var s2, l2 := stack, live;
        SwitchFile(at, Std(true));
        KeptTwice(s0, l0, s2, l2, stack, live, at);
      } else if stack[at].file == NoFile {
        SetScalars(at, stack[at - 1].scalars);
        ghost var s1, l1 := stack, live;
        FileExists(stack, live, used, at - 1);
        SwitchFile(at, stack[at - 1].file);
        KeptTwice(s0, l0, s1, l1, stack, live, at);
        ghost var s2, l2 := stack, live;
        if at == 1 {
          CopyLists();
        } else {
          Inherited(stack, live, used);
          stack := stack[at := stack[at].(lists := stack[at - 1].lists)];
        }
        KeptTwice(s0, l0, s2, l2, stack, live, at);
      }
      SoundTyped(stack, live, used);
    }

    /** Copies one list of the global settings into the first pushed entry. */
    method CopyList(k: nat)
      requires Valid() && |stack| == 2 && k < KINDS && WellTyped(stack) && stack[1].lists[k] == Null
      modifies this`stack, this`live, this`fresh'
      ensures Valid() && OthersKept(old(stack), old(live), stack, live, 1)
      ensures |stack| == 2 && WellTyped(stack) && OnlyList(old(stack), stack, 1, k)
      ensures ListsOf(stack[1], live) == ListsOf(old(stack)[1], old(live))[k := ListsOf(old(stack)[0], old(live))[k]]
    {
      hide Sound, OthersKept, LooksLike;
      SoundTyped(stack, live, used);
      KeptSelf(stack, live, 1);
      var p := stack[0].lists[k];
      if p.Ref? {
        assert At(stack, 0, k).id in live;
        var c := live[p.id];
        PlaceKeeps(stack, live, used, 1, k, fresh', c);
        PlaceLists(stack, live, used, 1, k, fresh', c);
        stack := WithPtr(stack, 1, k, Ref(fresh'));
        live := live[fresh' := c];
        fresh' := fresh' + 1;
      }
    }

    /** The first pushed entry copies the lists of the global settings. */
    method CopyLists()
      requires Valid() && |stack| == 2 && stack[1].lists == [Null, Null, Null] && WellTyped(stack)
      modifies this`stack, this`live, this`fresh'
      ensures Valid() && OthersKept(old(stack), old(live), stack, live, 1)
      ensures |stack| == 2 && stack[1].file == old(stack)[1].file && stack[1].scalars == old(stack)[1].scalars
      ensures WellTyped(stack) && ListsOf(stack[1], live) == ListsOf(old(stack)[0], old(live))
    {
      hide Sound, OthersKept, LooksLike, ListsOf;
      ghost var s0, l0 := stack, live;
      KeptSelf(stack, live, 1);
      CopyList(0);
      ghost var s1, l1 := stack, live;
      KeptLists(s0, l0, stack, live, 1, 0);
      CopyList(1);
      KeptTwice(s0, l0, s1, l1, stack, live, 1);
      ghost var s2, l2 := stack, live;
      KeptLists(s0, l0, stack, live, 1, 0);
      CopyList(2);
      KeptTwice(s0, l0, s2, l2, stack, live, 1);
    }

    /** One field of a control string. */
    method Apply(at: nat, relative: bool, f: Field)
      requires Valid() && Changeable(at) && (f.Clear? || f.Edit? ==> f.kind < KINDS)
      requires stack[at].file != NoFile && (!relative ==> OwnsAll(stack, at))
      modifies this
      ensures Valid() && OthersKept(old(stack), old(live), stack, live, at) && |stack| == |old(stack)|
      ensures stack[at].file != NoFile && (!relative ==> OwnsAll(stack, at))
      ensures |stack[at].lists| == KINDS == |old(stack)[at].lists|
      ensures ListsOf(stack[at], live) == EditLists(ListsOf(old(stack)[at], old(live)), [f])
      ensures stack[at].scalars == EditScalars(old(stack)[at].scalars, [f])
      ensures EndFile(old(stack)[at].file, f, old(used), stack[at].file)
    {
      hide Sound, OthersKept, LooksLike, OwnsAll, ListsOf;
      ghost var s0 := stack;
      SoundTyped(stack, live, used);
      assert [f][..0] == [];
      match f {
        case Clear(k) =>
          ApplyClear(at, relative, k);
        case Edit(k, change) =>
          ApplyEdit(at, relative, k, change);
        case OutputTo(target) =>
          ApplyOutput(at, target);
        case Scalar(update) =>
          ApplyScalar(at, update);
      }
      if !relative && (f.OutputTo? || f.Scalar?) {
        OwnsSame(s0, stack, at);
      }
    }

    /** Drops a list. */
    method ApplyClear(at: nat, relative: bool, k: nat)
      requires Valid() && Changeable(at) && k < KINDS && (!relative ==> OwnsAll(stack, at))
      modifies this`stack, this`live
      ensures Valid() && OthersKept(old(stack), old(live), stack, live, at) && |stack| == |old(stack)|
      ensures !relative ==> OwnsAll(stack, at)
      ensures |stack[at].lists| == KINDS == |old(stack)[at].lists|
      ensures ListsOf(stack[at], live) == ListsOf(old(stack)[at], old(live))[k := multiset{}]
      ensures stack[at].scalars == old(stack)[at].scalars && stack[at].file == old(stack)[at].file
    {
      hide Sound, OthersKept, LooksLike;
      ghost var s0 := stack;
      SoundTyped(stack, live, used);
      Release(at, k);
      SoundTyped(stack, live, used);
      if !relative {
        OwnsStill(s0, stack, at, k);
      }
    }

    /** Changes a list, after copying it if it is shared. */
    method ApplyEdit(at: nat, relative: bool, k: nat, change: List -> List)
      requires Valid() && Changeable(at) && k < KINDS && (!relative ==> OwnsAll(stack, at))
      modifies this`stack, this`live, this`fresh'
      ensures Valid() && OthersKept(old(stack), old(live), stack, live, at) && |stack| == |old(stack)|
      ensures !relative ==> OwnsAll(stack, at)
      ensures |stack[at].lists| == KINDS == |old(stack)[at].lists|
      ensures var was := ListsOf(old(stack)[at], old(live)); ListsOf(stack[at], live) == was[k := change(was[k])]
      ensures stack[at].scalars == old(stack)[at].scalars && stack[at].file == old(stack)[at].file
    {
      hide Sound, OthersKept, LooksLike;
      ghost var s0, l0 := stack, live;
      SoundTyped(stack, live, used);
      KeptSelf(stack, live, at);
      if relative && IsShared(stack, at, k) {
        Unshare(at, k);
      }
      ghost var s1, l1 := stack, live;
      SoundTyped(stack, live, used);
      Change(at, k, change);
      KeptTwice(s0, l0, s1, l1, stack, live, at);
      KeptLength(s0, l0, stack, live, at);
      SoundTyped(stack, live, used);
      if !relative {
        OwnsStill(s0, stack, at, k);
      }
    }

    /** Switches the output. */
    method ApplyOutput(at: nat, target: Output)
      requires Valid() && at < |stack| && stack[at].file != NoFile
      modifies this`stack, this`used, this`fresh'
      ensures Valid() && OthersKept(old(stack), live, stack, live, at) && |stack| == |old(stack)|
      ensures stack[at].lists == old(stack)[at].lists && stack[at].scalars == old(stack)[at].scalars
      ensures forall i :: 0 <= i < |stack| ==> stack[i].lists == old(stack)[i].lists
      ensures stack[at].file != NoFile && EndFile(old(stack)[at].file, OutputTo(target), old(used), stack[at].file)
    {
      hide Sound, OthersKept, LooksLike;
      match target {
        case ToStderr => SwitchFile(at, Std(true));
        case ToStdout => SwitchFile(at, Std(false));
        case ToFile(opens) =>
          KeptSelf(stack, live, at);
          if opens {
            fresh' := fresh' + 1;
            SwitchFile(at, Shared(fresh' - 1));
          }
      }
    }

    method ApplyScalar(at: nat, update: int -> int)
      requires Valid() && at < |stack|
      modifies this`stack
      ensures Valid() && OthersKept(old(stack), live, stack, live, at)
      ensures stack == old(stack)[at := old(stack)[at].(scalars := update(old(stack)[at].scalars))]
    {
      hide Sound, OthersKept;
      SetScalars(at, update(stack[at].scalars));
    }

    /** Parses a control string into the entry `at`: the top one, or the global settings. */
    method Parse(at: nat, relative: bool, fields: seq<Field>)
      requires Valid() && Changeable(at) && (forall i :: 0 <= i < |stack| && i != at ==> stack[i].file != NoFile)
      requires forall i :: 0 <= i < |fields| && (fields[i].Clear? || fields[i].Edit?) ==> fields[i].kind < KINDS
      requires stack[at].file == NoFile ==> stack[at].lists == [Null, Null, Null]
      modifies this
      ensures Valid() && OthersKept(old(stack), old(live), stack, live, at) && |stack| == |old(stack)|
      ensures stack[at].file != NoFile && WellTyped(stack) && WellTyped(old(stack))
      ensures ListsOf(stack[at], live) == EditLists(StartLists(old(stack), old(live), at, relative), fields)
      ensures stack[at].scalars == EditScalars(StartScalars(old(stack), at, relative), fields)
      ensures (forall i :: 0 <= i < |fields| ==> !fields[i].OutputTo?) ==> stack[at].file == StartFile(old(stack), at, relative)
    {
      hide Sound, OthersKept, LooksLike, ListsOf, StartLists, StartScalars, StartFile, EditLists, EditScalars, OwnsAll;
      ghost var s0, l0 := stack, live;
      SoundTyped(stack, live, used);
      Begin(at, relative);
      KeptLength(s0, l0, stack, live, at);
      if !relative {
        OwnsNone(stack, at);
      }
      EditNone(StartLists(s0, l0, at, relative), StartScalars(s0, at, relative), fields);
      for i := 0 to |fields|
        invariant Valid() && OthersKept(s0, l0, stack, live, at) && |stack| == |s0|
        invariant WellTyped(stack) && stack[at].file != NoFile && (!relative ==> OwnsAll(stack, at))
        invariant ListsOf(stack[at], live) == EditLists(StartLists(s0, l0, at, relative), fields[..i])
        invariant stack[at].scalars == EditScalars(StartScalars(s0, at, relative), fields[..i])
        invariant (forall j :: 0 <= j < i ==> !fields[j].OutputTo?) ==> stack[at].file == StartFile(s0, at, relative)
      {
        EditStep(StartLists(s0, l0, at, relative), StartScalars(s0, at, relative), fields, i);
        ghost var s1, l1 := stack, live;
        Apply(at, relative, fields[i]);
        KeptTwice(s0, l0, s1, l1, stack, live, at);
        SoundTyped(stack, live, used);
      }
      assert fields[..|fields|] == fields;
    }

    /** Between operations every entry has an output file. */
    ghost predicate Ready()
      reads this
    {
      Valid() && forall i :: 0 <= i < |stack| ==> stack[i].file != NoFile
    }

    /** Pushes new settings; the entries below stay what they were. */
    method Push(c: Control)
      requires Ready() && c.Ok()
      modifies this
      ensures Ready() && |stack| == |old(stack)| + 1
      ensures forall i :: 0 <= i < |old(stack)| ==> LooksLike(old(stack)[i], old(live), stack[i], live)
      ensures Became(old(stack), old(live), |old(stack)| - 1, stack, live, |stack| - 1, c)
    {
      hide Sound, LooksLike;
      SoundTyped(stack, live, used);
      Pushed(stack, live, used);
      stack := stack + [BLANK];
      ghost var s1, l1 := stack, live;
      Parse(|stack| - 1, c.relative, c.fields);
      SameFiles(s1, l1, stack, live, |stack| - 1);
    }

    /** Changes the current settings, or pushes when only the global ones are there. */
    method Set(c: Control)
      requires Ready() && c.Ok()
      modifies this
      ensures Ready() && |stack| == if |old(stack)| == 1 then 2 else |old(stack)|
      ensures forall i :: 0 <= i < |stack| - 1 ==> LooksLike(old(stack)[i], old(live), stack[i], live)
      ensures Became(old(stack), old(live), |old(stack)| - 1, stack, live, |stack| - 1, c)
    {
      hide Sound, LooksLike;
      SoundTyped(stack, live, used);
      if |stack| == 1 {
        Push(c);
      } else {
        ghost var s1, l1 := stack, live;
        Parse(|stack| - 1, c.relative, c.fields);
        SameFiles(s1, l1, stack, live, |stack| - 1);
      }
    }

    /** Changes the global settings; the pushed entries stay what they were. */
    method SetGlobal(c: Control)
      requires Ready() && c.Ok()
      modifies this
      ensures Ready() && |stack| == |old(stack)|
      ensures forall i :: 1 <= i < |stack| ==> LooksLike(old(stack)[i], old(live), stack[i], live)
      ensures Became(old(stack), old(live), 0, stack, live, 0, c)
    {
      hide Sound, LooksLike;
      ghost var s1, l1 := stack, live;
      SoundTyped(stack, live, used);
      Parse(0, c.relative, c.fields);
      SameFiles(s1, l1, stack, live, 0);
    }

    /** Pops the current settings, unless only the global ones are there. */
    method Pop()
      requires Ready()
      modifies this
      ensures Ready() && |stack| == if |old(stack)| == 1 then 1 else |old(stack)| - 1
      ensures forall i :: 0 <= i < |stack| ==> LooksLike(old(stack)[i], old(live), stack[i], live)
    {
      hide Sound;
      SoundTyped(stack, live, used);
      if |stack| > 1 {
        ghost var s1, l1 := stack, live;
        FreeState(|stack| - 1);
        SameFiles(s1, l1, stack, live, |stack| - 1);
        Popped(stack, live, used);
        stack := stack[..|stack| - 1];
      }
    }

    /** Runs any sequence of operations that never pops below the entry `base`. Everything up to
        `base`, apart from the global settings, is then what it was, whatever was pushed, changed,
        shared and popped above it. */
    method Run(ops: seq<Op>, base: nat)
      requires Ready() && base < |stack| && forall i :: 0 <= i < |ops| ==> ops[i].Pop? || ops[i].control.Ok()
      requires StaysAbove(ops, |stack|, base)
      modifies this
      ensures Ready() && base < |stack|
      ensures forall i :: 1 <= i <= base ==> LooksLike(old(stack)[i], old(live), stack[i], live)
    {
      hide LooksLike, Sound;
      ghost var s0, l0 := stack, live;
      LooksSelf(s0, l0);
      var k := 0;
      while k < |ops|
        invariant 0 <= k <= |ops| && Ready() && base < |stack| && StaysAbove(ops[k..], |stack|, base)
        invariant forall i :: 1 <= i <= base ==> LooksLike(s0[i], l0, stack[i], live)
      {
        ghost var s1, l1 := stack, live;
        assert ops[k..][0] == ops[k] && ops[k..][1..] == ops[k + 1..];
        match ops[k] {
          case Push(c) => Push(c);
          case Set(c) => Set(c);
          case SetGlobal(c) => SetGlobal(c);
          case Pop => Pop();
        }
        LooksOn(s0, l0, s1, l1, stack, live, base);
        k := k + 1;
      }
    }
  }

  /** Entry `at` is what the control string makes of the settings of the earlier entry `from`. */
  ghost predicate Became(stack0: seq<Entry>, live0: map<nat, List>, from: int, stack: seq<Entry>, live: map<nat, List>, at: int,
                         c: Control)
  {
    && 0 <= from < |stack0| && 0 <= at < |stack| && |stack0[from].lists| == KINDS == |stack[at].lists|
    && ListsOf(stack[at], live) == EditLists(if c.relative then ListsOf(stack0[from], live0) else [multiset{}, multiset{}, multiset{}], c.fields)
    && stack[at].scalars == EditScalars(if c.relative then stack0[from].scalars else 0, c.fields)
  }

  datatype Control = Control(relative: bool, fields: seq<Field>) {
    ghost predicate Ok() {
      forall i :: 0 <= i < |fields| && (fields[i].Clear? || fields[i].Edit?) ==> fields[i].kind < KINDS
    }
  }

  datatype Op = Push(control: Control) | Set(control: Control) | SetGlobal(control: Control) | Pop

  /** The operations leave entry `base` alone: it is never popped, nor the current entry when the
      current settings are changed. */
  ghost predicate StaysAbove(ops: seq<Op>, height: nat, base: nat) {
    base < height &&
    (ops != [] ==>
       match ops[0]
       case Push(_) => StaysAbove(ops[1..], height + 1, base)
       case SetGlobal(_) => StaysAbove(ops[1..], height, base)
       case Set(_) => (height == 1 || base < height - 1) && StaysAbove(ops[1..], if height == 1 then 2 else height, base)
       case Pop => StaysAbove(ops[1..], if height == 1 then 1 else height - 1, base))
  }

  lemma LooksSelf(s: seq<Entry>, l: map<nat, List>)
    ensures forall i :: 0 <= i < |s| ==> LooksLike(s[i], l, s[i], l)
  {
  }

  lemma LooksOn(s0: seq<Entry>, l0: map<nat, List>, s1: seq<Entry>, l1: map<nat, List>, s2: seq<Entry>, l2: map<nat, List>, base: nat)
    requires base < |s0| && base < |s1| && base < |s2|
    requires forall i :: 1 <= i <= base ==> LooksLike(s0[i], l0, s1[i], l1)
    requires forall i :: 1 <= i <= base ==> LooksLike(s1[i], l1, s2[i], l2)
    ensures forall i :: 1 <= i <= base ==> LooksLike(s0[i], l0, s2[i], l2)
  {
    forall i | 1 <= i <= base
      ensures LooksLike(s0[i], l0, s2[i], l2)
    {
      assert LooksLike(s0[i], l0, s1[i], l1) && LooksLike(s1[i], l1, s2[i], l2);
    }
  }

  lemma SameFiles(s0: seq<Entry>, l0: map<nat, List>, s1: seq<Entry>, l1: map<nat, List>, at: nat)
    requires OthersKept(s0, l0, s1, l1, at)
    ensures |s0| == |s1| && forall i :: 0 <= i < |s0| && i != at ==> s1[i].file == s0[i].file
  {
  }

  lemma OwnsNone(stack: seq<Entry>, at: nat)
    requires WellTyped(stack) && at < |stack| && forall k :: 0 <= k < KINDS ==> At(stack, at, k).Null?
    ensures OwnsAll(stack, at)
  {
  }

  lemma EditNone(lists: seq<List>, x: int, fields: seq<Field>)
    ensures EditLists(lists, fields[..0]) == lists && EditScalars(x, fields[..0]) == x
  {
  }

  lemma EditStep(lists: seq<List>, x: int, fields: seq<Field>, i: nat)
    requires i < |fields|
    ensures EditLists(lists, fields[..i + 1]) == EditLists(EditLists(lists, fields[..i]), [fields[i]])
    ensures EditScalars(x, fields[..i + 1]) == EditScalars(EditScalars(x, fields[..i]), [fields[i]])
  {
    assert fields[..i + 1][..i] == fields[..i] && [fields[i]][..0] == [];
  }

  lemma OwnsStill(a: seq<Entry>, b: seq<Entry>, at: nat, k: nat)
    requires WellTyped(a) && WellTyped(b) && at < |a| && k < KINDS && OnlyList(a, b, at, k) && OwnsAll(a, at)
    requires At(b, at, k).Null? || !IsShared(b, at, k)
    ensures OwnsAll(b, at)
  {
    forall j | 0 <= j < KINDS
      ensures At(b, at, j).Null? || !IsShared(b, at, j)
    {
      if j != k {
        assert At(a, at, j) == At(b, at, j);
      }
    }
  }

  lemma OwnsSame(a: seq<Entry>, b: seq<Entry>, at: nat)
    requires WellTyped(a) && at < |a| == |b| && (forall i :: 0 <= i < |a| ==> b[i].lists == a[i].lists) && OwnsAll(a, at)
    ensures WellTyped(b) && OwnsAll(b, at)
  {
    forall j | 0 <= j < KINDS
      ensures At(b, at, j).Null? || !IsShared(b, at, j)
    {
      assert At(a, at, j) == At(b, at, j);
    }
  }

  lemma KeptLists(s0: seq<Entry>, l0: map<nat, List>, s1: seq<Entry>, l1: map<nat, List>, at: nat, i: nat)
    requires OthersKept(s0, l0, s1, l1, at) && i < |s0| && i != at && |s0[i].lists| == KINDS
    ensures |s1| == |s0| && |s1[i].lists| == KINDS && ListsOf(s1[i], l1) == ListsOf(s0[i], l0)
  {
    assert LooksLike(s0[i], l0, s1[i], l1);
  }

  lemma KeptLength(s0: seq<Entry>, l0: map<nat, List>, s1: seq<Entry>, l1: map<nat, List>, at: nat)
    requires OthersKept(s0, l0, s1, l1, at)
    ensures |s1| == |s0|
  {
  }

  lemma FileExists(stack: seq<Entry>, live: map<nat, List>, used: map<nat, nat>, i: nat)
    requires Sound(stack, live, used) && i < |stack|
    ensures stack[i].file.Shared? ==> stack[i].file.id in used
  {
    if stack[i].file.Shared? {
      UsesAfterUpdate(stack, i, stack[i].(file := NoFile), stack[i].file.id);
    }
  }

  lemma SoundTyped(stack: seq<Entry>, live: map<nat, List>, used: map<nat, nat>)
    requires Sound(stack, live, used)
    ensures WellTyped(stack)
    ensures forall i: nat, k: nat :: i < |stack| && k < KINDS && At(stack, i, k).Ref? ==> At(stack, i, k).id in live
  {
    forall i: nat, k: nat | i < |stack| && k < KINDS && At(stack, i, k).Ref?
      ensures At(stack, i, k).id in live
    {
      assert At(stack, i, k).id in Refs(stack);
    }
  }
}
