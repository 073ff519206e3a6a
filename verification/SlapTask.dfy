/** What one worker of the load tester runs: its statements in turn, over and over, until the limit is met. */
module SlapTask {

  /** The command line options that matter; a rate of 0 switches the feature off. */
  datatype Options = Options(onlyPrint: bool, detachRate: nat, commitRate: nat)

  datatype Action = AutocommitOff | Reconnect | Query(i: nat) | Commit

  /** The statements before the first empty one; the lengths stand for the statements. */
  function Runnable(lengths: seq<nat>): (m: nat)
    ensures m <= |lengths| && (forall i :: 0 <= i < m ==> lengths[i] > 0) && (m < |lengths| ==> lengths[m] == 0)
  {
    if lengths == [] || lengths[0] == 0 then 0 else 1 + Runnable(lengths[1..])
  }

  predicate ReconnectDue(o: Options, i: nat) {
    !o.onlyPrint && o.detachRate > 0 && i % o.detachRate == 0
  }

  predicate CommitDue(o: Options, j: nat) {
    o.commitRate > 0 && (j + 1) % o.commitRate == 0
  }

  function One(b: bool, a: Action): seq<Action> {
    if b then [a] else []
  }

  /** The actions of queries `j` up to `n`, counted over all passes; `connects` says which reconnections succeed,
      and the first one that does not ends it all. */
  function From(j: nat, n: nat, m: nat, o: Options, connects: nat -> bool): seq<Action>
    decreases n - j
  {
    if j >= n || m == 0 || (ReconnectDue(o, j % m) && !connects(j)) then []
    else
      One(ReconnectDue(o, j % m), Reconnect) + [Query(j % m)] + One(CommitDue(o, j), Commit)
      + From(j + 1, n, m, o, connects)
  }

  /** All a worker with `m` statements does. */
  function Task(m: nat, limit: nat, o: Options, connected: bool, connects: nat -> bool): seq<Action> {
    (if !o.onlyPrint && !connected then []
     else One(o.commitRate > 0, AutocommitOff) + From(0, if limit > 0 then limit else m, m, o, connects))
    + One(o.commitRate > 0, Commit)
  }

  /** A remainder is determined by its place in a pass. */
  lemma PassPlus(pass: nat, m: nat, i: nat)
    requires i < m
    ensures (pass * m + i) % m == i
  {
    var d, e := (pass * m + i) / m, (pass * m + i) % m;
    assert (pass - d) * m == e - i;
    if pass > d {
      AtLeast(pass - d, m);
    } else if pass < d {
      AtLeast(d - pass, m);
    }
  }

  lemma {:induction false} AtLeast(k: nat, m: nat)
    requires k > 0
    ensures k * m >= m
  {
    if k > 1 {
      AtLeast(k - 1, m);
    }
  }

  /** The counter that is set back to 0 when it reaches the rate is the remainder. */
  lemma CountsUp(q: nat, rate: nat)
    requires rate > 0
    ensures (q + 1) % rate == if q % rate + 1 == rate then 0 else q % rate + 1
  {
    assert q + 1 == q / rate * rate + (q % rate + 1);
    if q % rate + 1 == rate {
      assert q + 1 == (q / rate + 1) * rate;
      Multiple(q / rate + 1, rate);
    } else {
      PassPlus(q / rate, rate, q % rate + 1);
    }
  }

  lemma Multiple(k: nat, m: nat)
    requires m > 0
    ensures k * m % m == 0
  {
    PassPlus(k, m, 0);
  }

  /** The step from query `j` to the next. */
  lemma StepFrom(j: nat, n: nat, m: nat, o: Options, connects: nat -> bool, log: seq<Action>, all: seq<Action>)
    requires j < n && m > 0 && log + From(j, n, m, o, connects) == all
    requires ReconnectDue(o, j % m) ==> connects(j)
    ensures log + One(ReconnectDue(o, j % m), Reconnect) + [Query(j % m)] + One(CommitDue(o, j), Commit)
            + From(j + 1, n, m, o, connects) == all
  {
  }

  // ----- how many passes it takes -----

  /** How many queries are done after `k` passes. */
  function AfterPasses(m: nat, limit: nat, k: nat): nat {
    if k == 0 then 0
    else if AfterPasses(m, limit, k - 1) + m >= limit then limit
    else AfterPasses(m, limit, k - 1) + m
  }

  /** The passes come to the limit if and only if there is a statement to run: otherwise they go on for ever. */
  lemma LimitIsMet(m: nat, limit: nat)
    requires limit > 0
    ensures (exists k: nat :: AfterPasses(m, limit, k) == limit) <==> m > 0
  {
    if m > 0 {
      Reaches(m, limit, limit);
      assert AfterPasses(m, limit, limit) == limit;
    } else {
      forall k: nat
        ensures AfterPasses(m, limit, k) == 0
      {
        NoProgress(limit, k);
      }
    }
  }

  lemma {:induction false} Reaches(m: nat, limit: nat, k: nat)
    requires m > 0 && k <= limit
    ensures k <= AfterPasses(m, limit, k) <= limit
  {
    if k > 0 {
      Reaches(m, limit, k - 1);
    }
  }

  lemma {:induction false} NoProgress(limit: nat, k: nat)
    requires limit > 0
    ensures AfterPasses(0, limit, k) == 0
  {
    if k > 0 {
      NoProgress(limit, k - 1);
    }
  }

  /** Once the limit is met it stays met. */
  lemma {:induction false} EndsThen(m: nat, limit: nat, k: nat, later: nat)
    requires k <= later
    ensures AfterPasses(m, limit, k) == limit ==> AfterPasses(m, limit, later) == limit
    decreases later
  {
    if k < later {
      EndsThen(m, limit, k, later - 1);
    }
  }

  // ----- the run -----

  /** Nothing to run, and a limit to be met. */
  predicate Endless(lengths: seq<nat>, limit: nat) {
    limit > 0 && Runnable(lengths) == 0
  }

  /** Runs the statements in turn, from the first one again after the last one, until the limit is met; looked at
      after so many passes. The run is then over, unless the passes do not make for the limit yet; without a
      statement to run, no number of them does. */
  method RunTask(lengths: seq<nat>, limit: nat, o: Options, connected: bool, connects: nat -> bool, passes: nat)
    returns (log: seq<Action>, ended: bool)
    ensures var all := Task(Runnable(lengths), limit, o, connected, connects);
      log <= all && (ended ==> log == all)
    ensures (o.onlyPrint || connected) && Endless(lengths, limit) ==> !ended
    ensures !Endless(lengths, limit) && passes > 0 && passes >= limit ==> ended
  {
    log, ended := [], true;
    if o.onlyPrint || connected {
      var queries;
      log, queries, ended := RunStatements(lengths, limit, o, connects, passes);
    }
    if ended && o.commitRate > 0 {
      log := log + [Commit];
    }
  }

  method RunStatements(lengths: seq<nat>, limit: nat, o: Options, connects: nat -> bool, passes: nat)
    returns (log: seq<Action>, queries: nat, ended: bool)
    ensures var m := Runnable(lengths); var n := if limit > 0 then limit else m;
      var all := One(o.commitRate > 0, AutocommitOff) + From(0, n, m, o, connects);
      if ended then log == all
      else log + From(queries, n, m, o, connects) == all && queries == AfterPasses(m, limit, passes)
    ensures limit > 0 && (forall k :: connects(k)) ==> (ended <==> AfterPasses(Runnable(lengths), limit, passes) == limit)
    ensures Endless(lengths, limit) ==> !ended
    ensures !Endless(lengths, limit) && passes > 0 && passes >= limit ==> ended
  {
    hide From;
    log := [];
    if o.commitRate > 0 {
      log := log + [AutocommitOff];
    }
    ghost var m := Runnable(lengths);
    ghost var n := if limit > 0 then limit else m;
    ghost var all := log + From(0, n, m, o, connects);
    var commitCounter := 0;
    queries, ended := 0, false;
    var pass := 0;
    while pass < passes
      invariant !ended && pass <= passes && queries == pass * m && (if limit > 0 then queries < limit else pass == 0)
      invariant queries == AfterPasses(m, limit, pass)
      invariant o.commitRate > 0 ==> commitCounter == queries % o.commitRate
      invariant log + From(queries, n, m, o, connects) == all
    {
      log, queries, commitCounter, ended := OnePass(lengths, limit, o, connects, log, queries, commitCounter, pass, all);
      if ended || limit == 0 || queries >= limit {
        EndsThen(m, limit, pass + 1, passes);
        if !ended {
          Ends(queries, n, m, o, connects);
          assert log + [] == log;
        }
        return log, queries, true;
      }
      pass := pass + 1;
    }
    if !Endless(lengths, limit) && limit > 0 && passes >= limit {
      Reaches(m, limit, limit);
      EndsThen(m, limit, limit, passes);
    }
  }

  lemma Ends(j: nat, n: nat, m: nat, o: Options, connects: nat -> bool)
    requires j >= n
    ensures From(j, n, m, o, connects) == []
  {
  }

  /** Runs statement `i`: reconnects before it and commits after it when that is due. */
  method RunOne(i: nat, o: Options, log0: seq<Action>, ghost queries: nat, commitCounter0: nat)
    returns (log: seq<Action>, commitCounter: nat)
    requires o.commitRate > 0 ==> commitCounter0 == queries % o.commitRate
    ensures log == log0 + One(ReconnectDue(o, i), Reconnect) + [Query(i)] + One(CommitDue(o, queries), Commit)
    ensures o.commitRate > 0 ==> commitCounter == (queries + 1) % o.commitRate
  {
    log, commitCounter := log0, commitCounter0;
    if !o.onlyPrint && o.detachRate > 0 && i % o.detachRate == 0 {
      log := log + [Reconnect];
    }
    log := log + [Query(i)];
    if o.commitRate > 0 {
      CountsUp(queries, o.commitRate);
      commitCounter := commitCounter + 1;
      if commitCounter == o.commitRate {
        commitCounter := 0;
        log := log + [Commit];
      }
    }
  }

  /** One pass over the statements; it ends the run when the limit is met or a reconnection fails. */
  method OnePass(lengths: seq<nat>, limit: nat, o: Options, connects: nat -> bool, log0: seq<Action>, queries0: nat,
                 commitCounter0: nat, ghost pass: nat, ghost all: seq<Action>)
    returns (log: seq<Action>, queries: nat, commitCounter: nat, ended: bool)
    requires var m := Runnable(lengths); var n := if limit > 0 then limit else m;
      && queries0 == pass * m && (limit > 0 ==> queries0 < limit) && (limit == 0 ==> pass == 0)
      && (o.commitRate > 0 ==> commitCounter0 == queries0 % o.commitRate)
      && log0 + From(queries0, n, m, o, connects) == all
    requires queries0 == AfterPasses(Runnable(lengths), limit, pass)
    ensures ended ==> log == all && Runnable(lengths) > 0
    ensures ended && (forall k :: connects(k)) ==> limit > 0 && AfterPasses(Runnable(lengths), limit, pass + 1) == limit
    ensures var m := Runnable(lengths); var n := if limit > 0 then limit else m;
      !ended ==>
        && queries == (pass + 1) * m && (limit > 0 ==> queries == AfterPasses(m, limit, pass + 1)) && (limit > 0 ==> queries < limit)
        && (o.commitRate > 0 ==> commitCounter == queries % o.commitRate)
        && log + From(queries, n, m, o, connects) == all
  {
    hide From, ReconnectDue, CommitDue, One;
    ghost var m := Runnable(lengths);
    ghost var n := if limit > 0 then limit else m;
    log, queries, commitCounter, ended := log0, queries0, commitCounter0, false;
    var i := 0;
    while i < |lengths| && lengths[i] > 0
      invariant i <= m && queries == pass * m + i && (limit > 0 ==> queries < limit)
      invariant o.commitRate > 0 ==> commitCounter == queries % o.commitRate
      invariant log + From(queries, n, m, o, connects) == all
    {
      PassPlus(pass, m, i);
      if ReconnectDue(o, i) && !connects(queries) {
        FailsToConnect(queries, n, m, o, connects);
        return log, queries, commitCounter, true;
      }
      StepFrom(queries, n, m, o, connects, log, all);
      log, commitCounter := RunOne(i, o, log, queries, commitCounter);
      queries := queries + 1;
      if limit > 0 && queries == limit {
        Ends(queries, n, m, o, connects);
        return log, queries, commitCounter, true;
      }
      i := i + 1;
    }
    assert (pass + 1) * m == pass * m + m;
  }

  lemma FailsToConnect(j: nat, n: nat, m: nat, o: Options, connects: nat -> bool)
    requires m > 0 && ReconnectDue(o, j % m) && !connects(j)
    ensures From(j, n, m, o, connects) == []
  {
  }

  // ----- what this amounts to -----

  /** The statements that are run, in order. */
  function Queries(log: seq<Action>): (q: seq<nat>) {
    if log == [] then [] else (if log[0].Query? then [log[0].i] else []) + Queries(log[1..])
  }

  lemma Regroup(x: seq<nat>, y: seq<nat>, z: seq<nat>)
    ensures x + (y + z) == x + y + z
  {
  }

  lemma {:induction false} QueriesOfBoth(a: seq<Action>, b: seq<Action>)
    ensures Queries(a + b) == Queries(a) + Queries(b)
  {
    if a == [] {
      assert a + b == b;
    } else {
      var first := if a[0].Query? then [a[0].i] else [];
      QueriesOfBoth(a[1..], b);
      assert (a + b)[1..] == a[1..] + b && (a + b)[0] == a[0];
      assert Queries(a + b) == first + Queries(a[1..] + b) && Queries(a) == first + Queries(a[1..]);
      Regroup(first, Queries(a[1..]), Queries(b));
    }
  }

  lemma {:induction false} QueriesFrom(j: nat, n: nat, m: nat, o: Options, connects: nat -> bool)
    requires m > 0 && j <= n && forall k :: connects(k)
    ensures |Queries(From(j, n, m, o, connects))| == n - j
    ensures forall k :: 0 <= k < n - j ==> Queries(From(j, n, m, o, connects))[k] == (j + k) % m
    decreases n - j
  {
    if j < n {
      QueriesFrom(j + 1, n, m, o, connects);
      assert connects(j);
      QueryAndRest(j, n, m, o, connects);
      hide From, Queries;
      var tail := Queries(From(j + 1, n, m, o, connects));
      forall k | 0 <= k < n - j
        ensures ([j % m] + tail)[k] == (j + k) % m
      {
        if k > 0 {
          assert tail[k - 1] == (j + 1 + (k - 1)) % m;
        }
      }
    }
  }

  lemma QueryAndRest(j: nat, n: nat, m: nat, o: Options, connects: nat -> bool)
    requires m > 0 && j < n && connects(j)
    ensures Queries(From(j, n, m, o, connects)) == [j % m] + Queries(From(j + 1, n, m, o, connects))
  {
    var rest := From(j + 1, n, m, o, connects);
    var due, query, commit := One(ReconnectDue(o, j % m), Reconnect), [Query(j % m)], One(CommitDue(o, j), Commit);
    assert From(j, n, m, o, connects) == due + query + commit + rest;
    hide From, CommitDue, ReconnectDue;
    QueriesOfBoth(due + query + commit, rest);
    QueriesOfBoth(due + query, commit);
    QueriesOfBoth(due, query);
    assert Queries(query) == [j % m] + Queries(query[1..]);
    assert query[1..] == [];
    NotAQuery(due);
    NotAQuery(commit);
  }

  lemma {:induction false} NotAQuery(log: seq<Action>)
    requires |log| <= 1 && forall i :: 0 <= i < |log| ==> !log[i].Query?
    ensures Queries(log) == []
  {
    if log != [] {
      assert log[1..] == [];
    }
  }

  /** A worker whose connections succeed runs exactly `limit` statements when there is a limit, and each of its
      statements once when there is none; the one it runs as number `j` is statement `j` modulo their number. */
  lemma RunsExactly(m: nat, limit: nat, o: Options, connects: nat -> bool)
    requires forall k :: connects(k)
    requires limit > 0 ==> m > 0
    ensures var q := Queries(Task(m, limit, o, true, connects));
      && |q| == (if limit > 0 then limit else m)
      && forall j :: 0 <= j < |q| ==> q[j] == j % m
  {
    var n := if limit > 0 then limit else m;
    var off, last := One(o.commitRate > 0, AutocommitOff), One(o.commitRate > 0, Commit);
    QueriesOfBoth(off + From(0, n, m, o, connects), last);
    QueriesOfBoth(off, From(0, n, m, o, connects));
    if m > 0 {
      QueriesFrom(0, n, m, o, connects);
    }
  }

  // ----- the pace of commits and reconnections -----

  /** Each commit comes after exactly `rate` queries since the one before, and no query goes without: `since` queries
      have been made since the last commit. */
  predicate Paced(log: seq<Action>, rate: nat, since: nat) {
    if log == [] then true
    else
      match log[0]
      case Query(_) => since < rate && Paced(log[1..], rate, since + 1)
      case Commit => since == rate && Paced(log[1..], rate, 0)
      case _ => Paced(log[1..], rate, since)
  }

  /** There is a new connection right before each statement whose number is a multiple of the rate, and only there. */
  predicate Reconnected(log: seq<Action>, o: Options) {
    if log == [] then true
    else if log[0].Reconnect? then
      && |log| > 1 && log[1].Query? && !o.onlyPrint && o.detachRate > 0 && log[1].i % o.detachRate == 0
      && Reconnected(log[2..], o)
    else
      (log[0].Query? ==> o.onlyPrint || o.detachRate == 0 || log[0].i % o.detachRate != 0) && Reconnected(log[1..], o)
  }

  /** One query, with a reconnection before it and a commit after it where they are due. */
  lemma OnePaced(i: nat, reconnect: bool, commit: bool, rest: seq<Action>, rate: nat, since: nat)
    requires since < rate && (commit <==> since + 1 == rate) && Paced(rest, rate, if commit then 0 else since + 1)
    ensures Paced(One(reconnect, Reconnect) + [Query(i)] + One(commit, Commit) + rest, rate, since)
  {
    var tail := One(commit, Commit) + rest;
    assert commit ==> tail[1..] == rest;
    assert !commit ==> tail == rest;
    assert Paced(tail, rate, since + 1);
    var query := [Query(i)] + tail;
    assert query[1..] == tail;
    assert Paced(query, rate, since);
    var all := One(reconnect, Reconnect) + [Query(i)] + One(commit, Commit) + rest;
    assert reconnect ==> all[1..] == query;
    assert !reconnect ==> all == query;
  }

  lemma {:induction false} FromPaced(j: nat, n: nat, m: nat, o: Options, connects: nat -> bool)
    requires o.commitRate > 0
    ensures Paced(From(j, n, m, o, connects), o.commitRate, j % o.commitRate)
    decreases n - j
  {
    if !(j >= n || m == 0 || (ReconnectDue(o, j % m) && !connects(j))) {
      FromPaced(j + 1, n, m, o, connects);
      CountsUp(j, o.commitRate);
      hide From, Paced;
      assert From(j, n, m, o, connects) == One(ReconnectDue(o, j % m), Reconnect) + [Query(j % m)]
        + One(CommitDue(o, j), Commit) + From(j + 1, n, m, o, connects) by {
        FromStep(j, n, m, o, connects);
      }
      OnePaced(j % m, ReconnectDue(o, j % m), CommitDue(o, j), From(j + 1, n, m, o, connects), o.commitRate, j % o.commitRate);
    }
  }

  lemma FromStep(j: nat, n: nat, m: nat, o: Options, connects: nat -> bool)
    requires j < n && m > 0 && (ReconnectDue(o, j % m) ==> connects(j))
    ensures From(j, n, m, o, connects) == One(ReconnectDue(o, j % m), Reconnect) + [Query(j % m)]
            + One(CommitDue(o, j), Commit) + From(j + 1, n, m, o, connects)
  {
  }

  lemma OneReconnected(i: nat, reconnect: bool, commit: bool, rest: seq<Action>, o: Options)
    requires reconnect <==> !o.onlyPrint && o.detachRate > 0 && i % o.detachRate == 0
    requires Reconnected(rest, o)
    ensures Reconnected(One(reconnect, Reconnect) + [Query(i)] + One(commit, Commit) + rest, o)
  {
    var tail := One(commit, Commit) + rest;
    assert commit ==> tail[1..] == rest;
    assert !commit ==> tail == rest;
    assert Reconnected(tail, o);
    var all := One(reconnect, Reconnect) + [Query(i)] + One(commit, Commit) + rest;
    assert reconnect ==> all[2..] == tail;
    assert !reconnect ==> all[1..] == tail;
  }

  lemma {:induction false} FromReconnected(j: nat, n: nat, m: nat, o: Options, connects: nat -> bool)
    ensures Reconnected(From(j, n, m, o, connects), o)
    decreases n - j
  {
    if !(j >= n || m == 0 || (ReconnectDue(o, j % m) && !connects(j))) {
      FromReconnected(j + 1, n, m, o, connects);
      FromStep(j, n, m, o, connects);
      hide From, Reconnected;
      OneReconnected(j % m, ReconnectDue(o, j % m), CommitDue(o, j), From(j + 1, n, m, o, connects), o);
    }
  }

  lemma {:induction false} NoCommits(j: nat, n: nat, m: nat, o: Options, connects: nat -> bool)
    requires o.commitRate == 0
    ensures Commit !in From(j, n, m, o, connects)
    decreases n - j
  {
    if !(j >= n || m == 0 || (ReconnectDue(o, j % m) && !connects(j))) {
      NoCommits(j + 1, n, m, o, connects);
    }
  }

  /** All that a worker with a connection does. With a commit rate, it switches automatic commits off, commits after
      every so many queries and once more at the end; without one it does not commit. It reconnects right before the
      statements whose number is a multiple of the rate. */
  lemma WorkerPace(m: nat, limit: nat, o: Options, connected: bool, connects: nat -> bool) returns (body: seq<Action>)
    requires o.onlyPrint || connected
    ensures Task(m, limit, o, connected, connects) == if o.commitRate > 0 then [AutocommitOff] + body + [Commit] else body
    ensures Reconnected(body, o)
    ensures if o.commitRate > 0 then Paced(body, o.commitRate, 0) else Commit !in body
  {
    var n := if limit > 0 then limit else m;
    body := From(0, n, m, o, connects);
    FromReconnected(0, n, m, o, connects);
    if o.commitRate > 0 {
      FromPaced(0, n, m, o, connects);
    } else {
      NoCommits(0, n, m, o, connects);
      assert [] + body + [] == body;
    }
  }
}
