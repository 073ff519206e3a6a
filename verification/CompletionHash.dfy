/** The table behind tab completion: every prefix of every word is a key, and the entry of a key lists the words
    with that prefix. Any hash function and any table size will do.
  */
module CompletionHash {
  import opened ClientText

  /** `data` lists the words of the bucket, the newest first. */
  datatype Bucket = Bucket(h: nat, key: string, count: nat, data: seq<string>)

  ghost predicate BucketOk(b: Bucket, i: nat, n: nat, hash: string -> nat, contents: map<string, seq<string>>) {
    && n > 0 && b.h == hash(b.key) && b.h % n == i
    && b.key in contents && contents[b.key] == b.data && b.count == |b.data| > 0
  }

  ghost predicate ChainOk(chain: seq<Bucket>, i: nat, n: nat, hash: string -> nat, contents: map<string, seq<string>>) {
    && (forall k :: 0 <= k < |chain| ==> BucketOk(chain[k], i, n, hash, contents))
    && (forall j, k :: 0 <= j < k < |chain| ==> chain[j].key != chain[k].key)
  }

  predicate HasKey(chain: seq<Bucket>, key: string) {
    exists k :: 0 <= k < |chain| && chain[k].key == key
  }

  /** The table holds exactly `contents`, each key once and in the chain that its hash value selects. */
  ghost predicate TableOk(chains: seq<seq<Bucket>>, hash: string -> nat, contents: map<string, seq<string>>) {
    && |chains| > 0
    && (forall i :: 0 <= i < |chains| ==> ChainOk(chains[i], i, |chains|, hash, contents))
    && (forall key :: key in contents ==> HasKey(chains[hash(key) % |chains|], key))
  }

  /** What an update leaves in the table. */
  function Updated(contents: map<string, seq<string>>, key: string, str: string): map<string, seq<string>> {
    contents[key := [str] + if key in contents then contents[key] else []]
  }

  /** A chain that does not hold the key is not concerned. */
  lemma OtherChain(chain: seq<Bucket>, i: nat, n: nat, hash: string -> nat, contents: map<string, seq<string>>,
                   key: string, str: string)
    requires ChainOk(chain, i, n, hash, contents) && !HasKey(chain, key)
    ensures ChainOk(chain, i, n, hash, Updated(contents, key, str))
  {
    forall k | 0 <= k < |chain|
      ensures BucketOk(chain[k], i, n, hash, Updated(contents, key, str))
    {
      assert BucketOk(chain[k], i, n, hash, contents);
    }
  }

  lemma KeysHashHere(chain: seq<Bucket>, i: nat, n: nat, hash: string -> nat, contents: map<string, seq<string>>,
                     key: string)
    requires ChainOk(chain, i, n, hash, contents) && n > 0
    ensures HasKey(chain, key) ==> hash(key) % n == i
  {
  }

  lemma ChainAdded(chain: seq<Bucket>, i: nat, n: nat, hash: string -> nat, contents: map<string, seq<string>>,
                   key: string, str: string)
    requires ChainOk(chain, i, n, hash, contents) && !HasKey(chain, key) && key !in contents
    requires n > 0 && hash(key) % n == i
    ensures ChainOk([Bucket(hash(key), key, 1, [str])] + chain, i, n, hash, Updated(contents, key, str))
  {
    OtherChain(chain, i, n, hash, contents, key, str);
    var chain' := [Bucket(hash(key), key, 1, [str])] + chain;
    forall k | 0 <= k < |chain'|
      ensures BucketOk(chain'[k], i, n, hash, Updated(contents, key, str))
    {
      if k > 0 {
        assert chain'[k] == chain[k - 1];
      }
    }
  }

  lemma ChainExtended(chain: seq<Bucket>, i: nat, n: nat, hash: string -> nat, contents: map<string, seq<string>>,
                      k: nat, str: string)
    requires ChainOk(chain, i, n, hash, contents) && k < |chain|
    ensures ChainOk(chain[k := chain[k].(data := [str] + chain[k].data, count := chain[k].count + 1)], i, n, hash,
                    Updated(contents, chain[k].key, str))
  {
    var chain' := chain[k := chain[k].(data := [str] + chain[k].data, count := chain[k].count + 1)];
    var contents' := Updated(contents, chain[k].key, str);
    assert BucketOk(chain[k], i, n, hash, contents);
    forall j | 0 <= j < |chain|
      ensures BucketOk(chain'[j], i, n, hash, contents')
    {
      assert BucketOk(chain[j], i, n, hash, contents);
      if j < k {
        assert chain[j].key != chain[k].key;
      } else if j > k {
        assert chain[k].key != chain[j].key;
      }
    }
    forall j, l | 0 <= j < l < |chain|
      ensures chain'[j].key != chain'[l].key
    {
      assert chain[j].key != chain[l].key;
    }
  }

  /** Putting the chain for `key` in its new form leaves the whole table right. */
  lemma TableUpdated(chains: seq<seq<Bucket>>, hash: string -> nat, contents: map<string, seq<string>>,
                     key: string, str: string, chain: seq<Bucket>)
    requires TableOk(chains, hash, contents)
    requires ChainOk(chain, hash(key) % |chains|, |chains|, hash, Updated(contents, key, str))
    requires HasKey(chain, key)
    requires forall other :: HasKey(chains[hash(key) % |chains|], other) ==> HasKey(chain, other)
    ensures TableOk(chains[hash(key) % |chains| := chain], hash, Updated(contents, key, str))
  {
    var n, i := |chains|, hash(key) % |chains|;
    var chains', contents' := chains[i := chain], Updated(contents, key, str);
    forall j | 0 <= j < n
      ensures ChainOk(chains'[j], j, n, hash, contents')
    {
      if j != i {
        KeysHashHere(chains[j], j, n, hash, contents, key);
        OtherChain(chains[j], j, n, hash, contents, key, str);
      }
    }
    forall other | other in contents'
      ensures HasKey(chains'[hash(other) % n], other)
    {
      if other != key {
        assert HasKey(chains[hash(other) % n], other);
      }
    }
  }

  class HashTable {
    const hash: string -> nat
    const buckets: array<seq<Bucket>>
    ghost var contents: map<string, seq<string>>

    ghost predicate Valid()
      reads this, buckets
    {
      TableOk(buckets[..], hash, contents)
    }

    constructor (hash: string -> nat, size: nat)
      requires size > 0
      ensures Valid() && contents == map[] && this.hash == hash && fresh(buckets)
    {
      this.hash := hash;
      buckets := new seq<Bucket>[size](_ => []);
      contents := map[];
    }

    /** Where `key` is in its chain; the length of the chain if it is not there. */
    method FindIn(i: nat, key: string) returns (k: nat)
      requires Valid() && i < buckets.Length && hash(key) % buckets.Length == i
      ensures k <= |buckets[i]|
      ensures k < |buckets[i]| <==> key in contents
      ensures k < |buckets[i]| ==> buckets[i][k].key == key
      ensures k == |buckets[i]| ==> !HasKey(buckets[i], key)
    {
      var h := hash(key);
      var chain := buckets[i];
      assert ChainOk(buckets[..][i], i, buckets.Length, hash, contents);
      k := 0;
      while k < |chain|
        invariant k <= |chain| && forall j :: 0 <= j < k ==> chain[j].key != key
      {
        assert BucketOk(chain[k], i, buckets.Length, hash, contents);
        if chain[k].h == h && |chain[k].key| == |key| && chain[k].key == key {
          return;
        }
        k := k + 1;
      }
      assert key in contents ==> HasKey(buckets[..][i], key);
    }

    /** Puts `str` in front of the entries of `key`; fails for the empty key. */
    method Update(key: string, str: string) returns (ok: bool)
      requires Valid()
      modifies this, buckets
      ensures Valid() && ok == (key != "")
      ensures contents == if ok then Updated(old(contents), key, str) else old(contents)
    {
      var h := hash(key);
      var i := h % buckets.Length;
      if key == "" {
        return false;
      }
      hide TableOk, ChainOk;
      ghost var chains := buckets[..];
      ChainIsOk(chains, hash, contents, i);
      var k := FindIn(i, key);
      var chain;
      if k < |buckets[i]| {
        var b := buckets[i][k];
        ChainExtended(buckets[i], i, buckets.Length, hash, contents, k, str);
        chain := buckets[i][k := b.(data := [str] + b.data, count := b.count + 1)];
        SameKeys(buckets[i], k, chain[k]);
      } else {
        ChainAdded(buckets[i], i, buckets.Length, hash, contents, key, str);
        chain := [Bucket(h, key, 1, [str])] + buckets[i];
        MoreKeys(chain[0], buckets[i]);
      }
      TableUpdated(chains, hash, contents, key, str, chain);
      buckets[i] := chain;
      contents := Updated(contents, key, str);
      assert buckets[..] == chains[i := chain];
      return true;
    }

    /** Adds a word: afterwards the table is the one of all the words added so far and this one. */
    method AddWord(str: string, ghost words: seq<string>)
      requires Valid() && Indexes(contents, words)
      modifies this, buckets
      ensures Valid() && Indexes(contents, words + [str])
    {
      hide TableOk, Indexes, Adding;
      ghost var contents0 := contents;
      AddingNone(contents0, str);
      var i := 1;
      while i <= |str|
        invariant 1 <= i <= |str| + 1 && Valid() && Adding(contents0, contents, str, i - 1)
      {
        AddingOne(contents0, contents, str, i - 1);
        var _ := Update(str[..i], str);
        i := i + 1;
      }
      Added(contents0, contents, words, str);
    }

    /** The words with a prefix, the newest first, and how many there are; nothing if there is none, and nothing
        for the empty prefix. */
    method FindAllMatches(str: string, ghost words: seq<string>) returns (r: Option<Bucket>, length: nat)
      requires Valid() && Indexes(contents, words)
      ensures r.Some? <==> str != "" && Matching(words, str) != []
      ensures r.Some? ==> r.value.key == str && r.value.data == Matching(words, str) && r.value.count == |r.value.data|
      ensures length == if r.Some? then |str| else 0
    {
      var i := hash(str) % buckets.Length;
      var k := FindIn(i, str);
      if k == |buckets[i]| {
        return None, 0;
      }
      assert ChainOk(buckets[..][i], i, buckets.Length, hash, contents);
      assert BucketOk(buckets[i][k], i, buckets.Length, hash, contents);
      return Some(buckets[i][k]), |str|;
    }

    /** How far all the words with a prefix agree. */
    method FindLongestMatch(str: string, ghost words: seq<string>) returns (r: Option<Bucket>, length: nat)
      requires Valid() && Indexes(contents, words)
      ensures r.Some? <==> str != "" && Matching(words, str) != []
      ensures r.None? ==> length == 0
      ensures r.Some? ==>
        var s := Matching(words, str)[0];
        && |str| <= length <= |s| && r.value.key == s[..length] && r.value.data == Matching(words, s[..length])
        && (forall w :: w in Matching(words, str) ==> s[..length] <= w)
        && (length < |s| ==> exists w :: w in Matching(words, str) && !(s[..length + 1] <= w))
    {
      hide TableOk, Indexes;
      var b, _ := FindAllMatches(str, words);
      if b.None? {
        return None, 0;
      }
      var count := b.value.count;
      var s := b.value.data[0];
      assert s in Matching(words, str);
      r, length := b, |str|;
      assert s[..|str|] == str;
      while length < |s|
        invariant |str| <= length <= |s| && r.Some? && r.value.key == s[..length]
        invariant r.value.data == Matching(words, s[..length])
        invariant forall w :: w in Matching(words, str) ==> s[..length] <= w
      {
        assert s in Matching(words, s[..length + 1]);
        var next, _ := FindAllMatches(s[..length + 1], words);
        FewerMatches(words, str, s[..length + 1]);
        if next.value.count < count {
          return;
        }
        r, length := next, length + 1;
      }
    }
  }

  lemma AddingNone(contents: map<string, seq<string>>, str: string)
    ensures Adding(contents, contents, str, 0)
  {
  }

  lemma ChainIsOk(chains: seq<seq<Bucket>>, hash: string -> nat, contents: map<string, seq<string>>, i: nat)
    requires TableOk(chains, hash, contents) && i < |chains|
    ensures ChainOk(chains[i], i, |chains|, hash, contents)
  {
  }

  lemma SameKeys(chain: seq<Bucket>, k: nat, b: Bucket)
    requires k < |chain| && b.key == chain[k].key
    ensures forall key :: HasKey(chain, key) ==> HasKey(chain[k := b], key)
    ensures HasKey(chain[k := b], b.key)
  {
    forall key | HasKey(chain, key)
      ensures HasKey(chain[k := b], key)
    {
      var j :| 0 <= j < |chain| && chain[j].key == key;
      assert chain[k := b][j].key == key;
    }
    assert chain[k := b][k].key == b.key;
  }

  lemma MoreKeys(b: Bucket, chain: seq<Bucket>)
    ensures forall key :: HasKey(chain, key) ==> HasKey([b] + chain, key)
    ensures HasKey([b] + chain, b.key)
  {
    forall key | HasKey(chain, key)
      ensures HasKey([b] + chain, key)
    {
      var j :| 0 <= j < |chain| && chain[j].key == key;
      assert ([b] + chain)[j + 1].key == key;
    }
    assert ([b] + chain)[0].key == b.key;
  }

  // ----- words and their prefixes -----

  /** The words with the given prefix, the newest first. */
  function Matching(words: seq<string>, key: string): (r: seq<string>)
    ensures forall w :: w in r <==> w in words && key <= w
  {
    if words == [] then []
    else
      var last := words[|words| - 1];
      assert words == words[..|words| - 1] + [last];
      (if key <= last then [last] else []) + Matching(words[..|words| - 1], key)
  }

  /** The table of `words`: each non-empty prefix of a word leads to the words with that prefix. */
  ghost predicate Indexes(contents: map<string, seq<string>>, words: seq<string>) {
    && (forall key :: key in contents <==> key != "" && Matching(words, key) != [])
    && (forall key :: key in contents ==> contents[key] == Matching(words, key))
  }

  /** A prefix of `str` that is done when those up to length `i` are. */
  predicate PrefixUpTo(key: string, str: string, i: nat) {
    key != "" && |key| <= i && key <= str
  }

  /** The table while a word is being added: its prefixes up to length `i` are done. */
  ghost predicate Adding(contents0: map<string, seq<string>>, contents: map<string, seq<string>>, str: string, i: nat) {
    && (forall key :: key in contents <==> key in contents0 || PrefixUpTo(key, str, i))
    && (forall key :: key in contents ==>
          contents[key] == (if PrefixUpTo(key, str, i) then [str] else [])
          + if key in contents0 then contents0[key] else [])
  }

  lemma OneMorePrefix(str: string, i: nat)
    requires i < |str|
    ensures !PrefixUpTo(str[..i + 1], str, i)
    ensures forall key :: PrefixUpTo(key, str, i + 1) <==> key == str[..i + 1] || PrefixUpTo(key, str, i)
  {
    forall key | PrefixUpTo(key, str, i + 1) && |key| == i + 1
      ensures key == str[..i + 1]
    {
    }
  }

  lemma AddingOne(contents0: map<string, seq<string>>, contents: map<string, seq<string>>, str: string, i: nat)
    requires Adding(contents0, contents, str, i) && i < |str|
    ensures Adding(contents0, Updated(contents, str[..i + 1], str), str, i + 1)
  {
    hide PrefixUpTo;
    OneMorePrefix(str, i);
  }

  lemma Added(contents0: map<string, seq<string>>, contents: map<string, seq<string>>, words: seq<string>, str: string)
    requires Indexes(contents0, words) && Adding(contents0, contents, str, |str|)
    ensures Indexes(contents, words + [str])
  {
    assert (words + [str])[..|words|] == words;
    forall key
      ensures Matching(words + [str], key) == (if key <= str then [str] else []) + Matching(words, key)
    {
    }
  }

  /** A longer prefix has no more matches, and as many exactly when all the matches have it. */
  lemma {:induction false} FewerMatches(words: seq<string>, key: string, longer: string)
    requires key <= longer
    ensures |Matching(words, longer)| <= |Matching(words, key)|
    ensures |Matching(words, longer)| == |Matching(words, key)| <==>
            forall w :: w in Matching(words, key) ==> longer <= w
  {
    if words != [] {
      var init, last := words[..|words| - 1], words[|words| - 1];
      FewerMatches(init, key, longer);
      assert longer <= last ==> key <= last;
      if key <= last {
        assert last in Matching(words, key);
      }
      assert forall w :: w in Matching(words, key) <==> w in Matching(init, key) || (w == last && key <= last);
    }
  }
}
