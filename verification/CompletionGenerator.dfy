/** The resumable generator of completions: each call hands out one word and remembers where it was in the table. */
module CompletionGenerating {
  import opened ClientText
  import opened CompletionHash

  /** From entry `e` of a bucket on, the words that are as long as its key. */
  function Yields(b: Bucket, e: nat): seq<string>
    decreases |b.data| - e
  {
    if e >= |b.data| then [] else (if |b.data[e]| == |b.key| then [b.data[e]] else []) + Yields(b, e + 1)
  }

  function OfChain(chain: seq<Bucket>, k: nat): seq<string>
    decreases |chain| - k
  {
    if k >= |chain| then [] else Yields(chain[k], 0) + OfChain(chain, k + 1)
  }

  function OfRows(chains: seq<seq<Bucket>>, i: nat): seq<string>
    decreases |chains| - i
  {
    if i >= |chains| then [] else OfChain(chains[i], 0) + OfRows(chains, i + 1)
  }

  /** What is still to come from entry `e` of bucket `k` of chain `i`. */
  function From(chains: seq<seq<Bucket>>, i: nat, k: nat, e: nat): seq<string>
    requires i < |chains| && k < |chains[i]|
  {
    Yields(chains[i][k], e) + OfChain(chains[i], k + 1) + OfRows(chains, i + 1)
  }

  /** Rows without a bucket have nothing to give. */
  lemma SkipEmpty(chains: seq<seq<Bucket>>, i: nat)
    requires i < |chains|
    ensures chains[i] == [] ==> OfRows(chains, i) == OfRows(chains, i + 1)
    ensures chains[i] != [] ==> OfRows(chains, i) == From(chains, i, 0, 0)
  {
  }

  lemma NoRows(chains: seq<seq<Bucket>>, i: nat)
    requires i >= |chains|
    ensures OfRows(chains, i) == []
  {
  }

  lemma NextEntry(chains: seq<seq<Bucket>>, i: nat, k: nat, e: nat)
    requires i < |chains| && k < |chains[i]| && e < |chains[i][k].data|
    ensures From(chains, i, k, e) ==
            (if |chains[i][k].data[e]| == |chains[i][k].key| then [chains[i][k].data[e]] else [])
            + From(chains, i, k, e + 1)
    ensures k + 1 < |chains[i]| ==> From(chains, i, k, |chains[i][k].data|) == From(chains, i, k + 1, 0)
    ensures k + 1 == |chains[i]| ==> From(chains, i, k, |chains[i][k].data|) == OfRows(chains, i + 1)
  {
    assert Yields(chains[i][k], |chains[i][k].data|) == [];
    if k + 1 < |chains[i]| {
      assert OfChain(chains[i], k + 1) == Yields(chains[i][k + 1], 0) + OfChain(chains[i], k + 2);
    } else {
      assert OfChain(chains[i], k + 1) == [];
    }
  }

  class Generator {
    const ht: HashTable
    var textLength: nat
    var i: nat
    var k: nat
    var e: Option<nat>

    constructor (ht: HashTable)
      ensures this.ht == ht && e.None?
    {
      this.ht := ht;
      textLength, i, k, e := 0, 0, 0, None;
    }

    /** The generator points to an entry of a bucket, or to nothing. */
    ghost predicate Positioned()
      reads this, ht, ht.buckets
    {
      e.Some? ==> i < ht.buckets.Length && k < |ht.buckets[i]| && e.value < |ht.buckets[i][k].data|
    }

    /** The words still to be handed out. */
    ghost function Ahead(): seq<string>
      requires Positioned()
      reads this, ht, ht.buckets
    {
      if e.None? then []
      else if textLength > 0 then ht.buckets[i][k].data[e.value..]
      else From(ht.buckets[..], i, k, e.value)
    }

    ghost predicate UsedFrom(i: nat)
      reads ht, ht.buckets
    {
      exists j :: i <= j < ht.buckets.Length && ht.buckets[j] != []
    }

    /** To the first bucket in a row from `i` on. */
    method NextUsedRow()
      requires ht.Valid() && textLength == 0
      requires e.Some? ==> UsedFrom(i)
      modifies `i, `k, `e
      ensures Positioned() && (e.Some? ==> e.value == 0 && k == 0)
      ensures Ahead() == OfRows(ht.buckets[..], old(i))
      ensures i >= old(i)
    {
      hide OfRows, OfChain, Yields;
      ghost var rows := ht.buckets[..];
      while i < ht.buckets.Length
        invariant e == old(e) && i >= old(i) && (e.Some? ==> UsedFrom(i)) && OfRows(rows, i) == OfRows(rows, old(i))
      {
        SkipEmpty(rows, i);
        if ht.buckets[i] != [] {
          k, e := 0, Some(0);
          HasData(ht, i, k);
          return;
        }
        i := i + 1;
      }
      NoRows(rows, i);
    }

    /** Past the current entry. */
    method NextUsedEntry()
      requires ht.Valid() && Positioned() && e.Some? && textLength == 0
      modifies `i, `k, `e
      ensures Positioned()
      ensures old(Ahead()) == old(
                if |ht.buckets[i][k].data[e.value]| == |ht.buckets[i][k].key| then [ht.buckets[i][k].data[e.value]]
                else []) + Ahead()
      ensures e.Some? ==> i > old(i) || (i == old(i) && (k > old(k) || (k == old(k) && e.value > old(e.value))))
    {
      NextEntry(ht.buckets[..], i, k, e.value);
      var b := ht.buckets[i][k];
      e := if e.value + 1 < |b.data| then Some(e.value + 1) else None;
      if e.None? {
        if k + 1 < |ht.buckets[i]| {
          k, e := k + 1, Some(0);
          HasData(ht, i, k);
        } else {
          i := i + 1;
          NextUsedRow();
        }
      }
    }

    /** All the words that completing `text` gives, in the order in which they are handed out. */
    ghost function Completions(text: string, words: seq<string>): seq<string>
      reads ht, ht.buckets
    {
      if text == "" then OfRows(ht.buckets[..], 0) else Matching(words, text)
    }

    /** The next word; nothing when there is none left. `first` starts over with a new text, at any time. When that
        text has no completions, the entry of an enumeration before is not given up. */
    method Next(text: string, first: bool, ghost words: seq<string>) returns (r: Option<string>)
      requires ht.Valid() && Indexes(ht.contents, words)
      requires Positioned()
      modifies this
      ensures Positioned()
      ensures var left := if first then Completions(text, words) else old(Ahead());
        if r.Some? then left == [r.value] + Ahead() else left == []
      ensures r.None? ==> e == if first && text != "" then old(e) else None
    {
      hide From, OfRows, Matching, TableOk, Indexes;
      if first {
        textLength := |text|;
      }
      if textLength > 0 {
        if first {
          var found := StartMatch(text, words);
          if !found {
            return None;
          }
        }
        r := NextMatch();
      } else {
        if first {
          assert e.Some? ==> ht.buckets[i] != [];
          i := 0;
          NextUsedRow();
        }
        r := NextWhole();
      }
    }

    /** To the first entry for a text, if there is one. */
    method StartMatch(text: string, ghost words: seq<string>) returns (found: bool)
      requires ht.Valid() && Indexes(ht.contents, words) && Positioned() && text != "" && textLength == |text|
      modifies `i, `k, `e
      ensures found <==> Matching(words, text) != []
      ensures Positioned() && if found then e.Some? && Ahead() == Matching(words, text) else e == old(e)
    {
      hide From;
      var row := ht.hash(text) % ht.buckets.Length;
      var at := ht.FindIn(row, text);
      found := at < |ht.buckets[row]|;
      if found {
        BucketIs(ht, row, at, words);
        i, k, e := row, at, Some(0);
      }
    }

    method NextMatch() returns (r: Option<string>)
      requires Positioned() && textLength > 0
      modifies `e
      ensures Positioned() && (r.None? ==> e.None?)
      ensures old(Ahead()) == (if r.Some? then [r.value] else []) + Ahead()
    {
      hide From;
      if e.None? {
        return None;
      }
      var data := ht.buckets[i][k].data;
      r := Some(data[e.value]);
      assert data[e.value..] == [data[e.value]] + data[e.value + 1..];
      e := if e.value + 1 < |data| then Some(e.value + 1) else None;
    }

    /** The next entry that is a whole word, not only a prefix. */
    method NextWhole() returns (r: Option<string>)
      requires ht.Valid() && Positioned() && textLength == 0
      modifies `i, `k, `e
      ensures Positioned() && (r.None? ==> e.None?)
      ensures old(Ahead()) == (if r.Some? then [r.value] else []) + Ahead()
    {
      hide From;
      r := None;
      while e.Some? && r.None?
        invariant Positioned() && old(Ahead()) == (if r.Some? then [r.value] else []) + Ahead()
        decreases if e.Some? then ht.buckets.Length - i else 0, if e.Some? then |ht.buckets[i]| - k else 0,
                  if e.Some? then |ht.buckets[i][k].data| - e.value else 0
      {
        var b := ht.buckets[i][k];
        if |b.data[e.value]| == |b.key| {
          r := Some(b.data[e.value]);
        }
        NextUsedEntry();
      }
    }

    /** Asks for words until there are none left. */
    method All(text: string, ghost words: seq<string>) returns (all: seq<string>)
      requires ht.Valid() && Indexes(ht.contents, words) && Positioned()
      modifies this
      ensures Positioned() && all == Completions(text, words)
    {
      hide From, OfRows, Matching, TableOk, Indexes, Generator.Ahead, Generator.Positioned, Generator.Completions;
      ghost var left := Completions(text, words);
      ghost var whole := left;
      var r := Next(text, true, words);
      all := [];
      assert all + left == whole;
      while r.Some?
        invariant Positioned() && all + left == whole
        invariant if r.Some? then left == [r.value] + Ahead() else left == []
        decreases |left|
      {
        TakeFirst(all, left, r.value, Ahead());
        all := all + [r.value];
        left := Ahead();
        r := Next(text, false, words);
      }
    }
  }

  lemma TakeFirst(a: seq<string>, b: seq<string>, w: string, rest: seq<string>)
    requires b == [w] + rest
    ensures (a + [w]) + rest == a + b && |rest| < |b|
  {
  }

  /** In a table of `words`, the bucket of a text lists the matches. */
  lemma BucketIs(ht: HashTable, i: nat, k: nat, words: seq<string>)
    requires ht.Valid() && Indexes(ht.contents, words) && i < ht.buckets.Length && k < |ht.buckets[i]|
    ensures ht.buckets[i][k].data == Matching(words, ht.buckets[i][k].key) != []
  {
    assert ChainOk(ht.buckets[..][i], i, ht.buckets.Length, ht.hash, ht.contents);
    assert BucketOk(ht.buckets[i][k], i, ht.buckets.Length, ht.hash, ht.contents);
  }

  lemma HasData(ht: HashTable, i: nat, k: nat)
    requires ht.Valid() && i < ht.buckets.Length && k < |ht.buckets[i]|
    ensures |ht.buckets[i][k].data| > 0
  {
    assert ChainOk(ht.buckets[..][i], i, ht.buckets.Length, ht.hash, ht.contents);
    assert BucketOk(ht.buckets[i][k], i, ht.buckets.Length, ht.hash, ht.contents);
  }

  // ----- every word as often as it was added -----

  function NonEmpty(words: seq<string>): seq<string> {
    if words == [] then []
    else NonEmpty(words[..|words| - 1]) + if words[|words| - 1] != "" then [words[|words| - 1]] else []
  }

  /** How often a word occurs. */
  function Times(s: seq<string>, w: string): nat {
    multiset(s)[w]
  }

  lemma TimesBoth(a: seq<string>, b: seq<string>, w: string)
    ensures Times(a + b, w) == Times(a, w) + Times(b, w)
  {
  }

  lemma TimesOne(x: string, w: string)
    ensures Times([x], w) == (if x == w then 1 else 0) && Times([], w) == 0
  {
  }

  lemma {:induction false} MatchingCount(words: seq<string>, w: string)
    ensures Times(Matching(words, w), w) == Times(words, w)
  {
    hide Times;
    if words != [] {
      var front, last := words[..|words| - 1], words[|words| - 1];
      var first, m := if w <= last then [last] else [], Matching(front, w);
      MatchingCount(front, w);
      assert words == front + [last] && Matching(words, w) == first + m;
      TimesBoth(front, [last], w);
      TimesBoth(first, m, w);
      TimesOne(last, w);
    }
  }

  lemma {:induction false} NonEmptyCount(words: seq<string>, w: string)
    ensures Times(NonEmpty(words), w) == if w == "" then 0 else Times(words, w)
  {
    hide Times;
    if words != [] {
      var front, last := words[..|words| - 1], words[|words| - 1];
      var end, n := if last != "" then [last] else [], NonEmpty(front);
      NonEmptyCount(front, w);
      assert words == front + [last] && NonEmpty(words) == n + end;
      TimesBoth(front, [last], w);
      TimesBoth(n, end, w);
      TimesOne(last, w);
    } else {
      TimesOne("", w);
    }
  }

  /** Of the words in a bucket, only the key itself is as long as the key. */
  lemma {:induction false} YieldsCount(b: Bucket, e: nat, w: string)
    requires e <= |b.data| && forall d :: d in b.data ==> b.key <= d
    ensures Times(Yields(b, e), w) == if w == b.key then Times(b.data[e..], w) else 0
    decreases |b.data| - e
  {
    hide Times;
    if e < |b.data| {
      YieldsCount(b, e + 1, w);
      var d, rest := b.data[e], Yields(b, e + 1);
      var first := if |d| == |b.key| then [d] else [];
      assert d in b.data;
      assert |d| == |b.key| <==> d == b.key;
      assert b.data[e..] == [d] + b.data[e + 1..] && Yields(b, e) == first + rest;
      TimesBoth([d], b.data[e + 1..], w);
      TimesBoth(first, rest, w);
      TimesOne(d, w);
    } else {
      assert b.data[e..] == [];
      TimesOne("", w);
    }
  }

  lemma {:induction false} ChainCount(chain: seq<Bucket>, k: nat, i: nat, n: nat, hash: string -> nat,
                                      contents: map<string, seq<string>>, words: seq<string>, w: string)
    requires k <= |chain| && ChainOk(chain, i, n, hash, contents) && Indexes(contents, words)
    ensures Times(OfChain(chain, k), w) == if HasKey(chain[k..], w) then Times(Matching(words, w), w) else 0
    decreases |chain| - k
  {
    hide Times;
    if k < |chain| {
      ChainCount(chain, k + 1, i, n, hash, contents, words, w);
      assert BucketOk(chain[k], i, n, hash, contents);
      assert chain[k].data == Matching(words, chain[k].key);
      YieldsCount(chain[k], 0, w);
      assert chain[k].data[0..] == chain[k].data;
      TimesBoth(Yields(chain[k], 0), OfChain(chain, k + 1), w);
      KeyAhead(chain, k, w);
    } else {
      TimesOne("", w);
    }
  }

  lemma KeyAhead(chain: seq<Bucket>, k: nat, w: string)
    requires k < |chain| && forall j, l :: 0 <= j < l < |chain| ==> chain[j].key != chain[l].key
    ensures HasKey(chain[k..], w) <==> chain[k].key == w || HasKey(chain[k + 1..], w)
    ensures chain[k].key == w ==> !HasKey(chain[k + 1..], w)
  {
    assert chain[k..] == [chain[k]] + chain[k + 1..];
    MoreKeys(chain[k], chain[k + 1..]);
    if j :| 0 <= j < |chain[k..]| && chain[k..][j].key == w && j > 0 {
      assert chain[k + 1..][j - 1].key == w;
    }
  }

  lemma {:induction false} RowsCount(chains: seq<seq<Bucket>>, i: nat, hash: string -> nat,
                                     contents: map<string, seq<string>>, words: seq<string>, w: string)
    requires TableOk(chains, hash, contents) && Indexes(contents, words) && i <= |chains|
    ensures Times(OfRows(chains, i), w) ==
            if w in contents && hash(w) % |chains| >= i then Times(Matching(words, w), w) else 0
    decreases |chains| - i
  {
    if i < |chains| {
      hide Times, Indexes, Matching, OfChain, TableOk, ChainOk, HasKey;
      ChainIsOk(chains, hash, contents, i);
      RowsCount(chains, i + 1, hash, contents, words, w);
      TimesBoth(OfChain(chains[i], 0), OfRows(chains, i + 1), w);
      ChainCount(chains[i], 0, i, |chains|, hash, contents, words, w);
      assert chains[i][0..] == chains[i];
      RowHas(chains, i, hash, contents, w);
    }
  }

  lemma RowHas(chains: seq<seq<Bucket>>, i: nat, hash: string -> nat, contents: map<string, seq<string>>, w: string)
    requires TableOk(chains, hash, contents) && i < |chains|
    ensures |chains| > 0 && (HasKey(chains[i], w) <==> w in contents && hash(w) % |chains| == i)
  {
    KeysHashHere(chains[i], i, |chains|, hash, contents, w);
    if k :| 0 <= k < |chains[i]| && chains[i][k].key == w {
      assert BucketOk(chains[i][k], i, |chains|, hash, contents);
    }
  }

  /** Walking the whole table hands out every non-empty word, each as often as it was added. */
  lemma EveryWordOnce(chains: seq<seq<Bucket>>, hash: string -> nat, contents: map<string, seq<string>>, words: seq<string>)
    requires TableOk(chains, hash, contents) && Indexes(contents, words)
    ensures multiset(OfRows(chains, 0)) == multiset(NonEmpty(words))
  {
    forall w: string
      ensures multiset(OfRows(chains, 0))[w] == multiset(NonEmpty(words))[w]
    {
      RowsCount(chains, 0, hash, contents, words, w);
      MatchingCount(words, w);
      NonEmptyCount(words, w);
      if w !in contents && w != "" {
        assert Matching(words, w) == [];
      }
    }
  }
}
