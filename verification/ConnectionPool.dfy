/** The asynchronous connection pool: queries are sent over free connections, and completions are picked up with
    `poll`. The network is arbitrary: any non-empty choice of connections in flight may become ready, and any
    query may fail.
  */
module ConnectionPool {

  /** What the caller hands in; handler 0 means that no completion is wanted. */
  datatype Submission = Submission(handler: nat, query: string, context: int)

  datatype Connection = Connection(sub: Submission, release: bool, inUse: bool)

  /** A call of a completion handler. */
  datatype Call = Call(sub: Submission, success: bool)

  function Wanted(s: Submission): multiset<Submission> {
    if s.handler != 0 then multiset{s} else multiset{}
  }

  /** The completions still owed for the connections in flight. */
  function Owed(conns: seq<Connection>, polled: seq<bool>): multiset<Submission>
    requires |conns| == |polled|
  {
    if conns == [] then multiset{}
    else
      var n := |conns| - 1;
      Owed(conns[..n], polled[..n]) + if polled[n] then Wanted(conns[n].sub) else multiset{}
  }

  function Answered(calls: seq<Call>): multiset<Submission> {
    if calls == [] then multiset{} else Answered(calls[..|calls| - 1]) + multiset{calls[|calls| - 1].sub}
  }

  lemma AnsweredOne(calls: seq<Call>, c: Call)
    ensures Answered(calls + [c]) == Answered(calls) + multiset{c.sub}
  {
    assert (calls + [c])[..|calls|] == calls;
  }

  function CountTrue(bs: seq<bool>): (n: nat)
    ensures n > 0 <==> exists i :: 0 <= i < |bs| && bs[i]
  {
    if bs == [] then 0 else (if bs[0] then 1 else 0) + CountTrue(bs[1..])
  }

  /** Replacing connection `i` by one out of flight takes away what was owed for it. */
  lemma {:induction false} OwedWithout(conns: seq<Connection>, polled: seq<bool>, i: nat, c: Connection)
    requires i < |conns| == |polled|
    ensures Owed(conns, polled) == Owed(conns[i := c], polled[i := false])
            + if polled[i] then Wanted(conns[i].sub) else multiset{}
  {
    var n := |conns| - 1;
    if i < n {
      OwedWithout(conns[..n], polled[..n], i, c);
      assert conns[i := c][..n] == conns[..n][i := c] && polled[i := false][..n] == polled[..n][i := false];
    } else {
      assert conns[i := c][..n] == conns[..n] && polled[i := false][..n] == polled[..n];
    }
  }

  lemma {:induction false} OwedWith(conns: seq<Connection>, polled: seq<bool>, i: nat, c: Connection)
    requires i < |conns| == |polled| && !polled[i]
    ensures Owed(conns[i := c], polled[i := true]) == Owed(conns, polled) + Wanted(c.sub)
  {
    OwedWithout(conns[i := c], polled[i := true], i, conns[i]);
    assert conns[i := c][i := conns[i]] == conns && polled[i := true][i := false] == polled;
  }

  lemma {:induction false} NothingOwed(conns: seq<Connection>, polled: seq<bool>)
    requires |conns| == |polled| && forall i :: 0 <= i < |polled| ==> !polled[i]
    ensures Owed(conns, polled) == multiset{}
  {
    if conns != [] {
      NothingOwed(conns[..|conns| - 1], polled[..|conns| - 1]);
    }
  }

  lemma {:induction false} CountTrueWithout(bs: seq<bool>, i: nat)
    requires i < |bs| && bs[i]
    ensures CountTrue(bs[i := false]) == CountTrue(bs) - 1
  {
    if i > 0 {
      CountTrueWithout(bs[1..], i - 1);
      assert bs[i := false][1..] == bs[1..][i - 1 := false];
    } else {
      assert bs[i := false][1..] == bs[1..];
    }
  }

  function Below(n: nat): (r: set<nat>)
    ensures |r| == n && forall i: nat :: i in r <==> i < n
  {
    if n == 0 then {} else Below(n - 1) + {n - 1}
  }

  function Elements(free: seq<nat>): (r: set<nat>)
    ensures forall i :: i in r <==> i in free
  {
    if free == [] then {} else {free[0]} + Elements(free[1..])
  }

  lemma {:induction false} DistinctSize(free: seq<nat>)
    requires forall j, k :: 0 <= j < k < |free| ==> free[j] != free[k]
    ensures |Elements(free)| == |free|
  {
    if free != [] {
      var rest := free[1..];
      assert forall k :: 0 <= k < |rest| ==> rest[k] == free[k + 1];
      DistinctSize(rest);
      assert free[0] !in rest;
      assert Elements(free) == {free[0]} + Elements(rest);
    }
  }

  /** A queue without repetition is as long as there are connections if and only if it holds every one. */
  lemma FullQueue(free: seq<nat>, n: nat)
    requires forall k :: 0 <= k < |free| ==> free[k] < n
    requires forall j, k :: 0 <= j < k < |free| ==> free[j] != free[k]
    ensures |free| == n <==> forall i :: 0 <= i < n ==> i in free
  {
    DistinctSize(free);
    assert Below(n) == Elements(free) + (Below(n) - Elements(free));
    if |free| == n {
      assert Below(n) - Elements(free) == {};
      forall i | 0 <= i < n
        ensures i in free
      {
        assert i in Below(n);
      }
    }
    if forall i :: 0 <= i < n ==> i in free {
      assert Below(n) == Elements(free);
    }
  }

  /** Every connection is free, in flight, or kept by a completion that did not release it, and the queue holds
      no connection twice. */
  ghost predicate Places(conns: seq<Connection>, polled: seq<bool>, free: seq<nat>) {
    && |polled| == |conns|
    && (forall k :: 0 <= k < |free| ==> free[k] < |conns|)
    && (forall j, k :: 0 <= j < k < |free| ==> free[j] != free[k])
    && (forall i :: 0 <= i < |conns| ==> (i in free <==> !conns[i].inUse))
    && (forall i :: 0 <= i < |conns| ==> polled[i] ==> conns[i].inUse)
  }

  lemma PlacesAtFirst(conns: seq<Connection>, polled: seq<bool>, free: seq<nat>)
    requires |polled| == |conns| == |free|
    requires forall i :: 0 <= i < |conns| ==> !conns[i].inUse && !polled[i] && free[i] == i
    ensures Places(conns, polled, free) && forall i :: 0 <= i < |conns| ==> i in free
  {
    forall i | 0 <= i < |conns|
      ensures i in free
    {
      assert free[i] == i;
    }
  }

  lemma PlacesReleased(conns: seq<Connection>, polled: seq<bool>, free: seq<nat>, i: nat, c: Connection)
    requires Places(conns, polled, free) && i < |conns| && conns[i].inUse && !polled[i] && !c.inUse
    ensures Places(conns[i := c], polled, free + [i])
  {
    var free' := free + [i];
    forall j, k | 0 <= j < k < |free'|
      ensures free'[j] != free'[k]
    {
      assert free'[j] == free[j] && free[j] in free;
    }
    forall j | 0 <= j < |conns|
      ensures j in free' <==> !conns[i := c][j].inUse
    {
      assert j in free' <==> j in free || j == i;
    }
  }

  lemma SameLength(conns: seq<Connection>, polled: seq<bool>, free: seq<nat>)
    requires Places(conns, polled, free)
    ensures |conns| == |polled|
  {
  }

  lemma PlacesTaken(conns: seq<Connection>, polled: seq<bool>, free: seq<nat>, i: nat)
    requires Places(conns, polled, free) && i < |polled| && polled[i]
    ensures i < |conns| && conns[i].inUse && Places(conns, polled[i := false], free)
  {
  }

  /** Sending over the first connection of the queue. */
  lemma PlacesSent(conns: seq<Connection>, polled: seq<bool>, free: seq<nat>, c: Connection)
    requires Places(conns, polled, free) && free != [] && c.inUse
    ensures free[0] < |conns| && Places(conns[free[0] := c], polled[free[0] := true], free[1..])
  {
    var i := free[0];
    forall j | 0 <= j < |conns|
      ensures j in free[1..] <==> !conns[i := c][j].inUse
    {
      if j in free[1..] {
        var k :| 0 <= k < |free[1..]| && free[1..][k] == j;
        assert free[0] != free[k + 1];
      }
      assert free == [i] + free[1..];
    }
  }

  /** Failing to send puts the first connection back at the end. */
  lemma PlacesNotSent(conns: seq<Connection>, polled: seq<bool>, free: seq<nat>, c: Connection)
    requires Places(conns, polled, free) && free != [] && !c.inUse
    ensures free[0] < |conns| && Places(conns[free[0] := c], polled, free[1..] + [free[0]])
  {
    assert free[0] in free;
    PlacesSent(conns, polled, free, c.(inUse := true));
    PlacesReleased(conns[free[0] := c.(inUse := true)], polled, free[1..], free[0], c);
    assert conns[free[0] := c.(inUse := true)][free[0] := c] == conns[free[0] := c];
  }

  /** Some connections have been completed, and nothing else has changed. */
  ghost predicate Completed(conns0: seq<Connection>, polled0: seq<bool>, conns: seq<Connection>, polled: seq<bool>) {
    && |conns0| == |polled0| == |conns| == |polled|
    && (forall i :: 0 <= i < |conns| && polled[i] ==> polled0[i])
    && (forall i :: 0 <= i < |conns| ==>
          conns[i] == if polled0[i] && !polled[i] then Done(conns0[i]) else conns0[i])
  }

  function Done(c: Connection): Connection {
    c.(inUse := !c.release)
  }

  lemma CompletedNone(conns: seq<Connection>, polled: seq<bool>)
    requires |conns| == |polled|
    ensures Completed(conns, polled, conns, polled)
  {
  }

  lemma CompletedOne(conns0: seq<Connection>, polled0: seq<bool>, conns: seq<Connection>, polled: seq<bool>, i: nat)
    requires Completed(conns0, polled0, conns, polled) && i < |conns| && polled[i]
    ensures Completed(conns0, polled0, conns[i := Done(conns[i])], polled[i := false])
  {
  }

  lemma CompletedMore(conns0: seq<Connection>, polled0: seq<bool>, conns1: seq<Connection>, polled1: seq<bool>,
                      conns: seq<Connection>, polled: seq<bool>)
    requires Completed(conns0, polled0, conns1, polled1) && Completed(conns1, polled1, conns, polled)
    ensures Completed(conns0, polled0, conns, polled)
  {
    assert forall i :: 0 <= i < |conns| ==> (polled[i] ==> polled1[i]) && (polled1[i] ==> polled0[i]);
  }

  /** Connection `i` is free or will be, without further sends. */
  ghost predicate Returning(conns: seq<Connection>, polled: seq<bool>, i: nat) {
    i < |conns| == |polled| && (!conns[i].inUse || (polled[i] && conns[i].release))
  }

  /** Connection `i` is with the handler that was told to keep it. */
  ghost predicate Kept(conns: seq<Connection>, polled: seq<bool>, i: nat) {
    i < |conns| == |polled| && conns[i].inUse && !polled[i]
  }

  ghost predicate AllReturning(conns: seq<Connection>, polled: seq<bool>) {
    forall i :: 0 <= i < |conns| ==> Returning(conns, polled, i)
  }

  ghost predicate NoneReturning(conns: seq<Connection>, polled: seq<bool>) {
    forall i :: 0 <= i < |conns| ==> !Returning(conns, polled, i)
  }

  /** Whether a connection comes back is settled when its query is sent: completions do not change it. */
  lemma CompletionKeeps(conns0: seq<Connection>, polled0: seq<bool>, conns: seq<Connection>, polled: seq<bool>,
                        free0: seq<nat>)
    requires Completed(conns0, polled0, conns, polled) && Places(conns0, polled0, free0)
    ensures forall i: nat :: Returning(conns0, polled0, i) <==> Returning(conns, polled, i)
    ensures AllReturning(conns0, polled0) <==> AllReturning(conns, polled)
    ensures NoneReturning(conns0, polled0) <==> NoneReturning(conns, polled)
  {
    forall i: nat
      ensures Returning(conns0, polled0, i) <==> Returning(conns, polled, i)
    {
    }
  }

  /** A connection that does not come back, in flight or not, keeps the queue from ever being full. */
  lemma NeverFull(conns0: seq<Connection>, polled0: seq<bool>, free0: seq<nat>,
                  conns: seq<Connection>, polled: seq<bool>, free: seq<nat>)
    requires Places(conns0, polled0, free0) && Completed(conns0, polled0, conns, polled) && Places(conns, polled, free)
    ensures |free| == |conns| ==> AllReturning(conns0, polled0)
  {
    CompletionKeeps(conns0, polled0, conns, polled, free0);
    AllFree(conns, polled, free);
    if |free| == |conns| {
      forall i | 0 <= i < |conns|
        ensures Returning(conns, polled, i)
      {
        assert !polled[i] && !Kept(conns, polled, i);
      }
    }
  }

  /** One query in flight whose handler is to keep the connection: nothing is kept yet, but the queue will never be
      full. */
  lemma InFlightWithoutRelease(sub: Submission, conns: seq<Connection>, polled: seq<bool>, free: seq<nat>)
    requires Completed([Connection(sub, false, true)], [true], conns, polled) && Places(conns, polled, free)
    ensures Places([Connection(sub, false, true)], [true], []) && !Kept([Connection(sub, false, true)], [true], 0)
    ensures |free| != |conns|
  {
    NeverFull([Connection(sub, false, true)], [true], [], conns, polled, free);
    assert !Returning([Connection(sub, false, true)], [true], 0);
  }

  /** The queue is as long as the pool exactly when no connection is in flight or kept. */
  lemma AllFree(conns: seq<Connection>, polled: seq<bool>, free: seq<nat>)
    requires Places(conns, polled, free)
    ensures |free| == |conns| <==> forall i :: 0 <= i < |conns| ==> !polled[i] && !Kept(conns, polled, i)
  {
    FullQueue(free, |conns|);
    if |free| != |conns| && forall i :: 0 <= i < |conns| ==> !polled[i] && !Kept(conns, polled, i) {
      forall i | 0 <= i < |conns|
        ensures i in free
      {
        assert !polled[i] && !Kept(conns, polled, i);
      }
    }
  }

  ghost predicate InFlight(polled: seq<bool>) {
    exists i :: 0 <= i < |polled| && polled[i]
  }

  /** An empty queue, and a connection that comes back: then something is in flight. */
  lemma SomethingInFlight(conns: seq<Connection>, polled: seq<bool>, free: seq<nat>)
    requires Places(conns, polled, free) && free == [] && !NoneReturning(conns, polled)
    ensures InFlight(polled)
  {
    var i :| 0 <= i < |conns| && Returning(conns, polled, i);
    assert !conns[i].inUse ==> i in free;
  }

  /** A connection in the queue has come back. */
  lemma SomebodyFree(conns: seq<Connection>, polled: seq<bool>, free: seq<nat>)
    requires Places(conns, polled, free) && free != []
    ensures !NoneReturning(conns, polled)
  {
    assert free[0] in free && Returning(conns, polled, free[0]);
  }

  /** A queue that is not full, and every connection comes back: then something is in flight. */
  lemma StillInFlight(conns: seq<Connection>, polled: seq<bool>, free: seq<nat>)
    requires Places(conns, polled, free) && |free| != |conns| && AllReturning(conns, polled)
    ensures InFlight(polled)
  {
    AllFree(conns, polled, free);
    var i :| 0 <= i < |conns| && (polled[i] || Kept(conns, polled, i));
    assert Returning(conns, polled, i);
  }

  lemma CompletedLength(conns0: seq<Connection>, polled0: seq<bool>, conns: seq<Connection>, polled: seq<bool>)
    requires Completed(conns0, polled0, conns, polled)
    ensures |conns0| == |polled0| == |conns| == |polled|
  {
  }

  lemma FirstIsIdle(conns: seq<Connection>, polled: seq<bool>, free: seq<nat>)
    requires Places(conns, polled, free) && free != []
    ensures free[0] < |conns| == |polled| && !conns[free[0]].inUse && !polled[free[0]]
  {
    assert free[0] in free;
  }

  lemma NotSent(conns: seq<Connection>, polled: seq<bool>, c: nat, free: seq<nat>, con: Connection)
    requires Places(conns, polled, [c] + free) && !con.inUse
    ensures c < |conns| == |polled| && !polled[c] && Places(conns[c := con], polled, free + [c])
    ensures Owed(conns[c := con], polled) == Owed(conns, polled)
  {
    FirstIsIdle(conns, polled, [c] + free);
    PlacesNotSent(conns, polled, [c] + free, con);
    assert ([c] + free)[1..] == free;
    OwedWithout(conns, polled, c, con);
    assert polled[c := false] == polled;
  }

  lemma Sent(conns: seq<Connection>, polled: seq<bool>, c: nat, free: seq<nat>, con: Connection)
    requires Places(conns, polled, [c] + free) && con.inUse
    ensures c < |conns| == |polled| && Places(conns[c := con], polled[c := true], free)
    ensures Owed(conns[c := con], polled[c := true]) == Owed(conns, polled) + Wanted(con.sub)
  {
    FirstIsIdle(conns, polled, [c] + free);
    PlacesSent(conns, polled, [c] + free, con);
    assert ([c] + free)[1..] == free;
    OwedWith(conns, polled, c, con);
  }

  lemma EveryoneFree(conns: seq<Connection>, polled: seq<bool>, free: seq<nat>)
    requires Places(conns, polled, free) && |free| == |conns|
    ensures forall i :: 0 <= i < |conns| ==> i in free
  {
    FullQueue(free, |conns|);
  }

  class Pool {
    var conns: seq<Connection>
    var free: seq<nat>
    var polled: seq<bool>
    var calls: seq<Call>
    ghost var accepted: multiset<Submission>

    /** Every accepted query has been answered or is still in flight, with its own handler, text and context. */
    ghost predicate Valid()
      reads this
    {
      Places(conns, polled, free) && accepted == Answered(calls) + Owed(conns, polled)
    }

    constructor (n: nat)
      ensures Valid() && |conns| == n && calls == [] && accepted == multiset{}
      ensures forall i :: 0 <= i < n ==> i in free && !polled[i]
    {
      conns := seq(n, _ => Connection(Submission(0, "", 0), false, false));
      free := seq(n, i => i);
      polled := seq(n, _ => false);
      calls := [];
      accepted := multiset{};
      new;
      PlacesAtFirst(conns, polled, free);
      NothingOwed(conns, polled);
    }

    /** The network: some of the connections in flight have become ready. */
    method Poll() returns (revents: seq<bool>, n: nat)
      requires exists i :: 0 <= i < |polled| && polled[i]
      ensures |revents| == |polled| && n == CountTrue(revents) && n > 0
      ensures forall i :: 0 <= i < |polled| && revents[i] ==> polled[i]
    {
      assert CountTrue(polled) > 0;
      revents :| |revents| == |polled| && CountTrue(revents) > 0
                 && forall i :: 0 <= i < |polled| && revents[i] ==> polled[i];
      n := CountTrue(revents);
    }

    /** Reads the result of connection `i`, which has been taken out of the poll set, calls its handler, and frees
        it if it is to be released. */
    method CompleteQuery(i: nat, success: bool)
      requires Places(conns, polled, free) && i < |conns| == |polled| && !polled[i] && conns[i].inUse
      requires accepted == Answered(calls) + Owed(conns, polled) + Wanted(conns[i].sub)
      modifies `conns, `free, `calls
      ensures Valid()
      ensures conns == old(conns)[i := old(conns[i]).(inUse := !old(conns[i]).release)]
      ensures free == old(free) + if old(conns[i]).release then [i] else []
      ensures calls == old(calls) + if old(conns[i]).sub.handler != 0 then [Call(old(conns[i]).sub, success)] else []
    {
      hide Places, Owed, Answered;
      if conns[i].sub.handler != 0 {
        calls := calls + [Call(conns[i].sub, success)];
        AnsweredOne(old(calls), calls[|old(calls)|]);
      }
      if conns[i].release {
        var c := conns[i].(inUse := false);
        assert polled[i := false] == polled;
        OwedWithout(conns, polled, i, c);
        PlacesReleased(conns, polled, free, i, c);
        conns := conns[i := c];
        free := free + [i];
      }
    }

    /** Waits until some connections are ready, and completes exactly those. With nothing in flight it waits for
        ever. */
    method WaitForCompletions() returns (blocked: bool)
      requires Valid()
      modifies `conns, `free, `polled, `calls
      ensures blocked <==> !InFlight(old(polled))
      ensures blocked ==> unchanged(this)
      ensures Valid() && Completed(old(conns), old(polled), conns, polled)
      ensures !blocked ==> CountTrue(polled) < CountTrue(old(polled))
      ensures old(calls) <= calls && old(free) <= free
    {
      blocked := true;
      if i :| 0 <= i < |polled| && polled[i] {
        blocked := false;
        CompleteReady();
      } else {
        SameLength(conns, polled, free);
        CompletedNone(conns, polled);
      }
    }

    /** Completes the connections that `poll` reports. */
    method CompleteReady()
      requires Valid() && InFlight(polled)
      modifies `conns, `free, `polled, `calls
      ensures Valid() && Completed(old(conns), old(polled), conns, polled)
      ensures CountTrue(polled) < CountTrue(old(polled))
      ensures old(calls) <= calls && old(free) <= free
    {
      hide Places, Owed, Answered, Completed;
      assert |conns| == |polled| by { assert Places(conns, polled, free); SameLength(conns, polled, free); }
      var revents, n := Poll();
      ghost var n0 := n;
      CompletedNone(conns, polled);
      var i := 0;
      while n > 0 && i < |polled|
        invariant Valid() && |conns| == |polled| == |revents| == |old(polled)| && n == CountTrue(revents)
        invariant forall k :: 0 <= k < |polled| && revents[k] ==> polled[k] && k >= i
        invariant CountTrue(polled) + n0 == CountTrue(old(polled)) + n
        invariant Completed(old(conns), old(polled), conns, polled)
        invariant old(calls) <= calls && old(free) <= free
      {
        if revents[i] {
          CountTrueWithout(revents, i);
          CountTrueWithout(polled, i);
          CompletedOne(old(conns), old(polled), conns, polled, i);
          OwedWithout(conns, polled, i, conns[i]);
          assert conns[i := conns[i]] == conns;
          PlacesTaken(conns, polled, free, i);
          revents := revents[i := false];
          polled := polled[i := false];
          var success: bool := *;
          CompleteQuery(i, success);
          n := n - 1;
        }
        i := i + 1;
      }
      assert n == 0;
    }

    /** A free connection, after waiting for one if there is none. It waits for ever exactly when no connection comes
        back. */
    method GetConnection() returns (blocked: bool, c: nat)
      requires Valid()
      modifies `conns, `free, `polled, `calls
      ensures blocked <==> NoneReturning(old(conns), old(polled))
      ensures if blocked then Valid() && free == [] else Places(conns, polled, [c] + free) && old(free) <= [c] + free
      ensures accepted == Answered(calls) + Owed(conns, polled)
      ensures Completed(old(conns), old(polled), conns, polled) && old(calls) <= calls
    {
      hide Places, Owed, Answered, Completed, NoneReturning, InFlight;
      SameLength(conns, polled, free);
      CompletedNone(conns, polled);
      while free == []
        invariant Valid() && (NoneReturning(conns, polled) <==> NoneReturning(old(conns), old(polled)))
        invariant Completed(old(conns), old(polled), conns, polled) && old(calls) <= calls && old(free) <= free
        decreases CountTrue(polled)
      {
        ghost var conns1, polled1, free1 := conns, polled, free;
        if !NoneReturning(conns, polled) {
          SomethingInFlight(conns, polled, free);
        }
        blocked := WaitForCompletions();
        if blocked {
          return true, 0;
        }
        CompletionKeeps(conns1, polled1, conns, polled, free1);
        CompletedMore(old(conns), old(polled), conns1, polled1, conns, polled);
      }
      SomebodyFree(conns, polled, free);
      blocked, c := false, free[0];
      assert free == [c] + free[1..];
      free := free[1..];
    }

    /** Sends a query over a free connection; `ret` is what sending returns. A query that is sent will be answered
        on that connection; one that is not leaves its connection free. It waits for ever exactly when no connection
        comes back, and then nothing is sent. */
    method ExecuteAsync(sub: Submission, release: bool, ret: int) returns (blocked: bool, r: int, ghost c: nat)
      requires Valid()
      modifies this
      ensures blocked <==> NoneReturning(old(conns), old(polled))
      ensures Valid() && |conns| == |old(conns)| && old(calls) <= calls
      ensures accepted == old(accepted) + if !blocked && ret == 0 then Wanted(sub) else multiset{}
      ensures !blocked ==>
        r == ret && c < |conns| == |polled| && polled[c] == (ret == 0) && conns[c] == Connection(sub, release, ret == 0)
    {
      hide Places, Owed, Answered, Completed, NoneReturning;
      var k;
      blocked, k := GetConnection();
      r, c := ret, k;
      CompletedLength(old(conns), old(polled), conns, polled);
      if blocked {
        return;
      }
      ghost var conns1 := conns;
      var con := Connection(sub, release, false);
      NotSent(conns, polled, k, free, con);
      conns := conns[k := con];
      if ret != 0 {
        free := free + [k];
        return;
      }
      con := con.(inUse := true);
      Sent(conns1, polled, k, free, con);
      conns := conns[k := con];
      assert conns == conns1[k := con];
      polled := polled[k := true];
      accepted := accepted + Wanted(sub);
    }

    /** Returns when every connection is free: nothing is in flight, and every query that was accepted has been
        answered once. It waits for ever exactly when some connection does not come back. */
    method WaitAll() returns (blocked: bool)
      requires Valid()
      modifies `conns, `free, `polled, `calls
      ensures blocked <==> !AllReturning(old(conns), old(polled))
      ensures Valid() && |conns| == |old(conns)| && old(calls) <= calls
      ensures forall i :: 0 <= i < |polled| ==> !polled[i]
      ensures !blocked ==> forall i :: 0 <= i < |conns| ==> i in free
      ensures Answered(calls) == accepted
    {
      hide Places, Owed, Answered, Completed, AllReturning;
      SameLength(conns, polled, free);
      CompletedNone(conns, polled);
      blocked := false;
      while |free| != |conns| && !blocked
        invariant Valid() && |conns| == |polled| == |old(conns)| && old(calls) <= calls
        invariant AllReturning(conns, polled) <==> AllReturning(old(conns), old(polled))
        invariant blocked ==> !InFlight(polled) && !AllReturning(conns, polled)
        decreases !blocked, CountTrue(polled)
      {
        ghost var conns1, polled1, free1 := conns, polled, free;
        if AllReturning(conns, polled) {
          StillInFlight(conns, polled, free);
        }
        blocked := WaitForCompletions();
        CompletedLength(conns1, polled1, conns, polled);
        CompletionKeeps(conns1, polled1, conns, polled, free1);
      }
      if !blocked {
        AllFree(conns, polled, free);
        EveryoneFree(conns, polled, free);
        CompletedNone(conns, polled);
        NeverFull(conns, polled, free, conns, polled, free);
      }
      NothingOwed(conns, polled);
    }
  }
}
