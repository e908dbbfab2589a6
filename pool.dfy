/** The connection pool of nntp-pool.js: one pool of warm connections per
    server and account, each connection known by the number the pool gave it.

    Connections are objects shared between a pool's `connections` list, its
    `idleConnections` list and the global `activeConnections` map; here they are
    their ids, and what belongs to the connection object itself (its pool key,
    whether its client is connected, when it went idle) is kept per id in the
    class. The outcome of `client.connect()` is an input: the set of ids whose
    connect succeeds. Clock readings are an input too (`now`). Every operation
    runs to completion before the next one starts. */
module Pool {
  import opened Wrappers
  import opened Text

  // ---- Pool keys ----

  /** `username || 'anon'`: a missing or empty user name stands for anonymous access. */
  function EffectiveUser(username: String): (r: String)
    ensures r != []
  {
    if username == [] then "anon" else username
  }

  /** `${host}:${port}:${ssl}:${username || 'anon'}`. The password is no part of it. */
  function PoolKey(host: String, port: int, ssl: bool, username: String): String
  {
    host + ":" + IntToString(port) + ":" + BoolToString(ssl) + ":" + EffectiveUser(username)
  }

  /** When neither the host nor the user name holds a colon, the key splits
      back into the host, the port, the TLS flag and the effective user, so two
      callers share a pool exactly when those four agree, whatever their
      passwords. */
  lemma PoolKeyFields(host: String, port: int, ssl: bool, username: String)
    requires ':' !in host && ':' !in username
    ensures SplitOn(PoolKey(host, port, ssl, username), ':')
         == [host, IntToString(port), BoolToString(ssl), EffectiveUser(username)]
  {
    var parts := [host, IntToString(port), BoolToString(ssl), EffectiveUser(username)];
    var isColon := (x: char) => x == ':';
    assert Join(parts, ":") == PoolKey(host, port, ssl, username) by {
      assert Join(parts[3..], ":") == EffectiveUser(username);
      assert Join(parts[2..], ":") == BoolToString(ssl) + ":" + EffectiveUser(username);
      assert Join(parts[1..], ":") == IntToString(port) + ":" + Join(parts[2..], ":");
    }
    NatToStringToken(if port < 0 then -port else port);
    assert FreeOf(IntToString(port), isColon) by {
      var d := NatToString(if port < 0 then -port else port);
      assert forall i :: 0 <= i < |d| ==> IsDigit(d[i]);
    }
    assert forall k :: 0 <= k < |parts| ==> FreeOf(parts[k], isColon);
    SplitWhereJoin(parts, ':', isColon);
  }

  // ---- Lists of connection ids ----

  /** `list.findIndex(c => c.id === x)`, None where JavaScript gives -1. */
  function FindIndex<T(==)>(s: seq<T>, x: T): (r: Option<nat>)
    ensures r.None? <==> x !in s
    ensures r.Some? ==> r.value < |s| && s[r.value] == x && x !in s[..r.value]
  {
    if s == [] then None
    else if s[0] == x then Some(0)
    else match FindIndex(s[1..], x)
      case None => None
      case Some(k) => assert s[..k + 1] == [s[0]] + s[1..][..k]; Some(k + 1)
  }

  /** `findIndex` followed by `splice(index, 1)` when something was found. */
  function RemoveFirst<T(==)>(s: seq<T>, x: T): seq<T>
  {
    match FindIndex(s, x)
    case None => s
    case Some(i) => s[..i] + s[i + 1..]
  }

  /** Removing the first occurrence takes exactly one `x` out of the list's
      contents when there is one, and nothing otherwise. */
  lemma RemoveFirstCounts<T>(s: seq<T>, x: T)
    ensures multiset(RemoveFirst(s, x)) == multiset(s) - multiset{x}
    ensures |RemoveFirst(s, x)| == if x in s then |s| - 1 else |s|
  {
    match FindIndex(s, x)
    case None =>
      assert multiset(s)[x] == 0;
    case Some(i) =>
      assert s == s[..i] + [x] + s[i + 1..];
  }

  lemma RemoveFirstMembers<T>(s: seq<T>, x: T, y: T)
    ensures y in RemoveFirst(s, x) ==> y in s
    ensures y in s && y != x ==> y in RemoveFirst(s, x)
  {
    RemoveFirstCounts(s, x);
    assert y in RemoveFirst(s, x) <==> y in multiset(RemoveFirst(s, x));
    assert y in s <==> y in multiset(s);
  }

  predicate Distinct<T(==)>(s: seq<T>)
  {
    forall i, j :: 0 <= i < j < |s| ==> s[i] != s[j]
  }

  /** Out of a list without repetitions, removing `x` leaves no `x`. */
  lemma RemoveFirstDistinct<T>(s: seq<T>, x: T)
    requires Distinct(s)
    ensures Distinct(RemoveFirst(s, x)) && x !in RemoveFirst(s, x)
  {
    match FindIndex(s, x)
    case None =>
    case Some(i) =>
      var r := s[..i] + s[i + 1..];
      assert forall j :: 0 <= j < |r| ==> r[j] == if j < i then s[j] else s[j + 1];
  }

  /** Removes the first occurrence of each id of `ids`, one after the other. */
  function RemoveAll<T(==)>(s: seq<T>, ids: seq<T>): seq<T>
  {
    if ids == [] then s else RemoveFirst(RemoveAll(s, ids[..|ids| - 1]), ids[|ids| - 1])
  }

  /** Each removal takes one occurrence out of the list's contents. */
  lemma {:induction false} RemoveAllCounts<T>(s: seq<T>, ids: seq<T>)
    ensures multiset(RemoveAll(s, ids)) == multiset(s) - multiset(ids)
  {
    hide RemoveAll, RemoveFirst, FindIndex;
    if ids == [] {
      RemoveNothing(s);
    } else {
      var init := ids[..|ids| - 1];
      var last := ids[|ids| - 1];
      RemoveAllCounts(s, init);
      RemoveAllSnoc(s, init, last);
      assert ids == init + [last];
    }
  }

  lemma RemoveNothing<T>(s: seq<T>)
    ensures RemoveAll(s, []) == s
  {
  }

  lemma RemoveAllSnoc<T>(s: seq<T>, init: seq<T>, last: T)
    requires multiset(RemoveAll(s, init)) == multiset(s) - multiset(init)
    ensures multiset(RemoveAll(s, init + [last])) == multiset(s) - multiset(init + [last])
  {
    var ids := init + [last];
    assert ids[..|ids| - 1] == init;
    hide RemoveFirst;
    assert RemoveAll(s, ids) == RemoveFirst(RemoveAll(s, init), last);
    RemoveFirstCounts(RemoveAll(s, init), last);
    assert multiset(ids) == multiset(init) + multiset{last};
  }

  function Ids(s: seq<nat>): set<nat>
  {
    set x | x in s
  }

  lemma IdsSnoc(s: seq<nat>, x: nat)
    ensures Ids(s + [x]) == Ids(s) + {x}
  {
    assert forall y :: y in s + [x] <==> y in s || y == x;
  }

  lemma PrefixSnoc<T>(s: seq<T>, i: nat)
    requires i < |s|
    ensures forall y :: y in s[..i + 1] <==> y in s[..i] || y == s[i]
  {
    assert s[..i + 1] == s[..i] + [s[i]];
  }

  lemma IdsPrefix(s: seq<nat>, i: nat)
    requires i < |s|
    ensures Ids(s[..i + 1]) == Ids(s[..i]) + {s[i]}
  {
    PrefixSnoc(s, i);
  }

  function Last<T>(s: seq<T>): T
    requires s != []
  {
    s[|s| - 1]
  }

  lemma {:induction false} RemoveAllShrinks<T>(s: seq<T>, ids: seq<T>)
    ensures |RemoveAll(s, ids)| >= |s| - |ids|
  {
    if ids != [] {
      RemoveAllShrinks(s, ids[..|ids| - 1]);
      RemoveFirstCounts(RemoveAll(s, ids[..|ids| - 1]), Last(ids));
    }
  }

  // ---- The lists of one pool ----

  /** The parts of a pool that its operations change, as a value: the connection
      list, the idle list and the ids in use. The lists hold connection ids in the
      order the pool keeps its connection objects. */
  datatype Lists = Lists(connections: seq<nat>, idle: seq<nat>, inUse: set<nat>)

  /** A successful createNewConnection: the connection joins the list and is in use. */
  function Created(l: Lists, id: nat): Lists
  {
    l.(connections := l.connections + [id], inUse := l.inUse + {id})
  }

  /** removeConnection: the first entry with the id leaves the connection list and
      the idle list, and the id is no longer in use. */
  function Removed(l: Lists, id: nat): Lists
  {
    Lists(RemoveFirst(l.connections, id), RemoveFirst(l.idle, id), l.inUse - {id})
  }

  /** Removes the ids of `ids` one after the other. */
  function RemovedAll(l: Lists, ids: seq<nat>): Lists
  {
    if ids == [] then l else Removed(RemovedAll(l, ids[..|ids| - 1]), Last(ids))
  }

  lemma RemovedAllStep(l: Lists, ids: seq<nat>, i: nat)
    requires i < |ids|
    ensures RemovedAll(l, ids[..i + 1]) == Removed(RemovedAll(l, ids[..i]), ids[i])
  {
    var s := ids[..i + 1];
    assert s[..|s| - 1] == ids[..i];
  }

  lemma {:induction false} RemovedAllLists(l: Lists, ids: seq<nat>)
    ensures RemovedAll(l, ids).connections == RemoveAll(l.connections, ids)
    ensures RemovedAll(l, ids).idle == RemoveAll(l.idle, ids)
  {
    if ids != [] {
      RemovedAllLists(l, ids[..|ids| - 1]);
    }
  }

  /** The last idle connection is taken (`idleConnections.pop()`) and marked in use. */
  function Popped(l: Lists): Lists
    requires l.idle != []
  {
    l.(idle := l.idle[..|l.idle| - 1], inUse := l.inUse + {Last(l.idle)})
  }

  /** releaseConnection of a live connection: no longer in use, appended to the idle
      list and appended to the connection list once more. */
  function Idled(l: Lists, id: nat): Lists
  {
    Lists(l.connections + [id], l.idle + [id], l.inUse - {id})
  }

  /** Releasing a connection the pool already lists leaves it listed twice. */
  lemma ReleaseRelists(l: Lists, id: nat)
    requires id in l.connections
    ensures multiset(Idled(l, id).connections)[id] == multiset(l.connections)[id] + 1 >= 2
    ensures |Idled(l, id).connections| == |l.connections| + 1
    ensures Last(Idled(l, id).idle) == id && id !in Idled(l, id).inUse
  {
    assert multiset(l.connections)[id] >= 1;
  }

  // ---- getConnection ----

  /** The lists after the first half of getConnection: if an idle connection
      exists the last one is taken, and removed again when its client is dead. */
  function TakeIdle(l: Lists, live: set<nat>): Lists
  {
    if l.idle == [] then l
    else if Last(l.idle) in live then Popped(l)
    else Removed(Popped(l), Last(l.idle))
  }

  /** A live idle connection is reused, the most recently idled first. */
  lemma TakeIdleLifo(l: Lists, live: set<nat>)
    requires l.idle != [] && Last(l.idle) in live
    ensures TakeIdle(l, live).idle == l.idle[..|l.idle| - 1]
    ensures Last(l.idle) in TakeIdle(l, live).inUse
    ensures TakeIdle(l, live).connections == l.connections
  {
  }

  /** A dead idle connection is dropped from both lists and is not handed out. */
  lemma TakeIdleDropsDead(l: Lists, live: set<nat>)
    requires l.idle != [] && Last(l.idle) !in live
    ensures var q := TakeIdle(l, live);
      multiset(q.connections) == multiset(l.connections) - multiset{Last(l.idle)}
      && Last(l.idle) !in q.inUse && |q.idle| <= |l.idle| - 1
  {
    RemoveFirstCounts(l.connections, Last(l.idle));
    RemoveFirstCounts(Popped(l).idle, Last(l.idle));
  }

  /** What getConnection or a polling step hands back: a connection id, the error
      it rejects with, or the pool is full and the caller goes on waiting. */
  datatype Acquired = Got(id: nat) | Failed(error: String) | MustWait

  const ConnectFailed: String := "Connection failed"
  const WaitTimeout: String := "Timeout waiting for available connection"
  /** The default `timeout` of waitForAvailableConnection, in milliseconds. */
  const WaitLimit: int := 10000
  /** How long an empty pool may stay unused before the health check drops it. */
  const EmptyPoolLimit: int := 10 * 60 * 1000

  // ---- ensureMinConnections ----

  /** The ids that `n` connection attempts made after the counter stood at `c0`
      add to a pool: `c0 + 1 .. c0 + n`, less those whose connect fails. */
  function Made(c0: nat, n: nat, connects: set<nat>): (r: seq<nat>)
    ensures forall x :: x in r ==> c0 < x <= c0 + n && x in connects
  {
    if n == 0 then []
    else if c0 + n in connects then Made(c0, n - 1, connects) + [c0 + n]
    else Made(c0, n - 1, connects)
  }

  lemma MadeStep(c0: nat, n: nat, connects: set<nat>)
    ensures n == 0 ==> Made(c0, n, connects) == []
    ensures n > 0 ==> Made(c0, n, connects) == if c0 + n in connects then Made(c0, n - 1, connects) + [c0 + n]
                                             else Made(c0, n - 1, connects)
  {
  }

  /** Every attempt whose connect succeeds adds its connection, and in order. */
  lemma {:induction false} MadeExactly(c0: nat, n: nat, connects: set<nat>, x: nat)
    ensures x in Made(c0, n, connects) <==> c0 < x <= c0 + n && x in connects
    ensures forall i, j :: 0 <= i < j < |Made(c0, n, connects)| ==>
      Made(c0, n, connects)[i] < Made(c0, n, connects)[j]
  {
    if n > 0 {
      MadeExactly(c0, n - 1, connects, x);
      var prev := Made(c0, n - 1, connects);
      if c0 + n in connects {
        var r := prev + [c0 + n];
        assert x in r <==> x in prev || x == c0 + n;
        forall i, j | 0 <= i < j < |r|
          ensures r[i] < r[j]
        {
          assert r[i] == prev[i] && prev[i] in prev;
          if j < |prev| {
            assert r[j] == prev[j];
          }
        }
      }
    }
  }

  lemma {:induction false} MadeAllSucceed(c0: nat, n: nat, connects: set<nat>)
    requires forall x :: c0 < x <= c0 + n ==> x in connects
    ensures |Made(c0, n, connects)| == n
  {
    if n > 0 {
      MadeAllSucceed(c0, n - 1, connects);
    }
  }

  /** The loop at the end of ensureMinConnections: each connection that is neither
      in use nor already idle is appended to the idle list. */
  function MoveIdle(conns: seq<nat>, inUse: set<nat>, idle: seq<nat>): seq<nat>
  {
    if conns == [] then idle
    else
      var before := MoveIdle(conns[..|conns| - 1], inUse, idle);
      var c := Last(conns);
      if c !in inUse && c !in before then before + [c] else before
  }

  /** The idle list keeps what it had and gains exactly the connections that are
      not in use and were not idle yet, each once. */
  lemma {:induction false} MoveIdleSpec(conns: seq<nat>, inUse: set<nat>, idle: seq<nat>)
    ensures var r := MoveIdle(conns, inUse, idle);
      |idle| <= |r| && r[..|idle|] == idle
      && (forall x :: x in r <==> x in idle || (x in conns && x !in inUse))
      && (forall i, j :: 0 <= j < i < |r| && |idle| <= i ==> r[j] != r[i])
  {
    if conns != [] {
      var init := conns[..|conns| - 1];
      MoveIdleSpec(init, inUse, idle);
      assert forall x :: x in conns <==> x in init || x == Last(conns) by {
        assert conns == init + [Last(conns)];
      }
    }
  }

  /** Ids in use that the connections do not mention make no difference to the move. */
  lemma {:induction false} MoveIdleIgnores(conns: seq<nat>, inUse: set<nat>, extra: set<nat>, idle: seq<nat>)
    requires forall x :: x in conns ==> x !in extra
    ensures MoveIdle(conns, inUse + extra, idle) == MoveIdle(conns, inUse, idle)
  {
    if conns != [] {
      MoveIdleIgnores(conns[..|conns| - 1], inUse, extra, idle);
    }
  }

  /** Connections appended in use make no difference to the move. */
  lemma {:induction false} MoveIdleAppendInUse(a: seq<nat>, b: seq<nat>, inUse: set<nat>, idle: seq<nat>)
    requires forall x :: x in b ==> x in inUse
    ensures MoveIdle(a + b, inUse, idle) == MoveIdle(a, inUse, idle)
  {
    if b == [] {
      assert a + b == a;
    } else {
      var init := b[..|b| - 1];
      assert (a + b)[..|a + b| - 1] == a + init;
      assert Last(a + b) == Last(b) && Last(b) in b;
      MoveIdleAppendInUse(a, init, inUse, idle);
    }
  }

  /** The `idleSince` stamps the same loop sets on the connections it moves. */
  function StampMoved(stamps: map<nat, int>, conns: seq<nat>, inUse: set<nat>, idle: seq<nat>, now: int): map<nat, int>
  {
    if conns == [] then stamps
    else
      var before := StampMoved(stamps, conns[..|conns| - 1], inUse, idle, now);
      var c := Last(conns);
      if c !in inUse && c !in MoveIdle(conns[..|conns| - 1], inUse, idle) then before[c := now] else before
  }

  /** The connection attempts of ensureMinConnections with the counter at `c0`:
      when there are fewer than `minSize` connections, the missing number. */
  function Needed(l: Lists, minSize: nat): nat
  {
    if |l.connections| < minSize then minSize - |l.connections| else 0
  }

  /** The lists after ensureMinConnections: the new connections are appended in
      use, and then the idle-move loop runs over all connections. */
  function Filled(l: Lists, minSize: nat, c0: nat, connects: set<nat>): Lists
  {
    if Needed(l, minSize) == 0 then l
    else
      var made := Made(c0, Needed(l, minSize), connects);
      var conns := l.connections + made;
      var inUse := l.inUse + Ids(made);
      Lists(conns, MoveIdle(conns, inUse, l.idle), inUse)
  }

  /** The connections ensureMinConnections opens are marked in use and never made
      idle by it: the idle list only gains older connections, and a pool that had
      none gets no idle connection at all. */
  lemma EnsureMinIdle(l: Lists, minSize: nat, c0: nat, connects: set<nat>)
    requires forall x :: x in l.connections ==> x <= c0
    ensures Needed(l, minSize) == 0 ==> Filled(l, minSize, c0, connects) == l
    ensures Needed(l, minSize) > 0 ==>
      Filled(l, minSize, c0, connects).idle == MoveIdle(l.connections, l.inUse, l.idle)
    ensures l.connections == [] && l.idle == [] ==> Filled(l, minSize, c0, connects).idle == []
  {
    if Needed(l, minSize) > 0 {
      var made := Made(c0, Needed(l, minSize), connects);
      var inUse := l.inUse + Ids(made);
      assert forall x :: x in made ==> x in inUse;
      MoveIdleAppendInUse(l.connections, made, inUse, l.idle);
      assert forall x :: x in l.connections ==> x !in Ids(made);
      MoveIdleIgnores(l.connections, l.inUse, Ids(made), l.idle);
      assert Filled(l, minSize, c0, connects).idle == MoveIdle(l.connections + made, inUse, l.idle);
    }
  }

  /** With every connect succeeding, ensureMinConnections reaches `minSize`. */
  lemma FilledReachesMin(l: Lists, minSize: nat, c0: nat, connects: set<nat>)
    requires forall x :: c0 < x <= c0 + minSize ==> x in connects
    ensures |Filled(l, minSize, c0, connects).connections| >= minSize
  {
    if Needed(l, minSize) > 0 {
      MadeAllSucceed(c0, Needed(l, minSize), connects);
    }
  }

  // ---- checkConnectionsHealth ----

  /** The ids of the listed connections whose client is not connected, one entry
      per list entry. */
  function DeadOf(conns: seq<nat>, live: set<nat>): seq<nat>
  {
    if conns == [] then []
    else if Last(conns) in live then DeadOf(conns[..|conns| - 1], live)
    else DeadOf(conns[..|conns| - 1], live) + [Last(conns)]
  }

  lemma {:induction false} DeadOfCounts(conns: seq<nat>, live: set<nat>, x: nat)
    ensures multiset(DeadOf(conns, live))[x] == if x in live then 0 else multiset(conns)[x]
  {
    if conns != [] {
      var init := conns[..|conns| - 1];
      DeadOfCounts(init, live, x);
      assert conns == init + [Last(conns)];
      CountSnoc(init, Last(conns), x);
      if Last(conns) !in live {
        CountSnoc(DeadOf(init, live), Last(conns), x);
      }
    }
  }

  /** Removing every dead entry leaves only connections whose client is connected:
      a connection listed twice is listed twice among the dead too. */
  lemma DeadRemoved(l: Lists, live: set<nat>, x: nat)
    requires x in RemovedAll(l, DeadOf(l.connections, live)).connections
    ensures x in live && x in l.connections
  {
    var dead := DeadOf(l.connections, live);
    RemovedAllLists(l, dead);
    RemoveAllCounts(l.connections, dead);
    DeadOfCounts(l.connections, live, x);
    assert x in multiset(RemoveAll(l.connections, dead));
  }

  /** `conn.idleSince && (now - conn.idleSince) > idleTimeout`: a stamp of zero
      counts as no stamp. */
  predicate Expired(id: nat, stamps: map<nat, int>, now: int, timeout: int)
  {
    id in stamps && stamps[id] != 0 && now - stamps[id] > timeout
  }

  function ExpiredOf(idle: seq<nat>, stamps: map<nat, int>, now: int, timeout: int): (r: seq<nat>)
    ensures |r| <= |idle|
    ensures forall x :: x in r <==> x in idle && Expired(x, stamps, now, timeout)
  {
    if idle == [] then []
    else
      var init := idle[..|idle| - 1];
      assert forall x :: x in idle <==> x in init || x == Last(idle) by {
        assert idle == init + [Last(idle)];
      }
      ExpiredOf(init, stamps, now, timeout)
        + (if Expired(Last(idle), stamps, now, timeout) then [Last(idle)] else [])
  }

  function Min(a: int, b: int): int
  {
    if a <= b then a else b
  }

  /** `expiredIdle.slice(0, connections.length - minSize)`, only when the pool has
      more than `minSize` connections. */
  function ToTrim(l: Lists, minSize: nat, stamps: map<nat, int>, now: int, timeout: int): seq<nat>
  {
    if |l.connections| > minSize then
      var e := ExpiredOf(l.idle, stamps, now, timeout);
      e[..Min(|e|, |l.connections| - minSize)]
    else []
  }

  /** Only expired idle connections are trimmed, and never so many that the pool
      would fall below `minSize` connections. */
  lemma TrimKeepsMin(l: Lists, minSize: nat, stamps: map<nat, int>, now: int, timeout: int)
    ensures var t := ToTrim(l, minSize, stamps, now, timeout);
      (forall x :: x in t ==> x in l.idle && Expired(x, stamps, now, timeout))
      && (|l.connections| <= minSize ==> t == [])
      && |RemovedAll(l, t).connections| >= Min(|l.connections|, minSize)
  {
    var t := ToTrim(l, minSize, stamps, now, timeout);
    RemovedAllLists(l, t);
    RemoveAllShrinks(l.connections, t);
  }

  /** The lists after one pool's health check, before the decision to drop it:
      the dead entries removed, then the expired idle ones trimmed, then topped up. */
  function Pruned(l: Lists, minSize: nat, live: set<nat>, stamps: map<nat, int>, now: int,
                  timeout: int): Lists
  {
    var q1 := RemovedAll(l, DeadOf(l.connections, live));
    RemovedAll(q1, ToTrim(q1, minSize, stamps, now, timeout))
  }

  // ---- One pool together with the manager's per-connection state ----

  /** One pool's lists together with what the manager keeps per connection:
      `activeConnections` (each id with its pool key), the ids whose client is
      connected, the `idleSince` stamps, and the connection counter. */
  datatype State = State(lists: Lists, active: map<nat, String>, live: set<nat>,
                         stamps: map<nat, int>, counter: nat)

  /** Each id of `ids` mapped to the pool key `key`. */
  function Tagged(ids: seq<nat>, key: String): map<nat, String>
  {
    map id | id in ids :: key
  }

  lemma TaggedSnoc(a: map<nat, String>, made: seq<nat>, c: nat, key: String)
    ensures a + Tagged(made + [c], key) == (a + Tagged(made, key))[c := key]
  {
    assert forall y :: y in made + [c] <==> y in made || y == c;
  }

  /** removeConnection on the state: the lists lose the id, `activeConnections`
      loses it, and its client is disconnected when the pool listed it. */
  function Remove(s: State, id: nat): State
  {
    State(Removed(s.lists, id), s.active - {id},
          if id in s.lists.connections then s.live - {id} else s.live, s.stamps, s.counter)
  }

  /** removeConnection for each id of `ids` in turn, in closed form: the lists are
      `RemovedAll`, every id leaves `activeConnections`, and exactly the ids the
      pool listed at the start are disconnected. */
  function Drop(s: State, ids: seq<nat>): State
  {
    State(RemovedAll(s.lists, ids), s.active - Ids(ids),
          s.live - (Ids(ids) * Ids(s.lists.connections)), s.stamps, s.counter)
  }

  /** An id the pool listed and that was not removed yet is still listed. */
  lemma StillListed(conns: seq<nat>, ids: seq<nat>, x: nat)
    ensures x in RemoveAll(conns, ids) ==> x in conns
    ensures x in conns && x !in ids ==> x in RemoveAll(conns, ids)
  {
    RemoveAllCounts(conns, ids);
    assert x in RemoveAll(conns, ids) <==> x in multiset(RemoveAll(conns, ids));
    assert x in conns <==> x in multiset(conns);
    assert x in ids <==> x in multiset(ids);
  }

  lemma RemovedAllSnoc(l: Lists, ids: seq<nat>, x: nat)
    ensures RemovedAll(l, ids + [x]) == Removed(RemovedAll(l, ids), x)
  {
    var all := ids + [x];
    assert all[..|all| - 1] == ids;
  }

  /** Removing one more id is one more removeConnection. */
  lemma DropSnoc(s: State, ids: seq<nat>, x: nat)
    ensures Drop(s, ids + [x]) == Remove(Drop(s, ids), x)
  {
    hide RemovedAll, RemoveAll, Removed;
    var conns := s.lists.connections;
    var d := Drop(s, ids);
    RemovedAllSnoc(s.lists, ids, x);
    RemovedAllLists(s.lists, ids);
    IdsSnoc(ids, x);
    StillListed(conns, ids, x);
    assert s.active - Ids(ids + [x]) == d.active - {x};
    var live' := s.live - (Ids(ids + [x]) * Ids(conns));
    assert live' == if x in d.lists.connections then d.live - {x} else d.live;
  }

  /** The dead entries of a pool are not connected, so removing them disconnects
      no one. */
  lemma DropDeadKeepsLive(s: State)
    ensures Drop(s, DeadOf(s.lists.connections, s.live)).live == s.live
  {
    var dead := DeadOf(s.lists.connections, s.live);
    forall x | x in s.live ensures x !in Ids(dead) {
      DeadOfCounts(s.lists.connections, s.live, x);
      assert x !in multiset(dead);
    }
  }

  /** ensureMinConnections on the state: the attempts made with the counter at
      `s.counter` add their connections in use, active under the pool's key and
      connected; then the idle-move loop runs and stamps what it moves. */
  function Fill(s: State, key: String, minSize: nat, now: int, connects: set<nat>): State
  {
    var n := Needed(s.lists, minSize);
    if n == 0 then s
    else
      var l := s.lists;
      var made := Made(s.counter, n, connects);
      State(Filled(l, minSize, s.counter, connects), s.active + Tagged(made, key), s.live + Ids(made),
            StampMoved(s.stamps, l.connections + made, l.inUse + Ids(made), l.idle, now), s.counter + n)
  }

  /** The removals of one pool's health check on the state: the dead entries, then
      the expired idle connections above `minSize`, judged by the stamps. */
  function Prune(s: State, minSize: nat, now: int, timeout: int): State
  {
    var s1 := Drop(s, DeadOf(s.lists.connections, s.live));
    Drop(s1, ToTrim(s1.lists, minSize, s.stamps, now, timeout))
  }

  /** The pruned lists are `Pruned`, and only trimmed idle connections are
      disconnected. */
  lemma PruneSpec(s: State, minSize: nat, now: int, timeout: int)
    ensures var s1 := Drop(s, DeadOf(s.lists.connections, s.live));
      var t := ToTrim(s1.lists, minSize, s.stamps, now, timeout);
      var p := Prune(s, minSize, now, timeout);
      p.lists == Pruned(s.lists, minSize, s.live, s.stamps, now, timeout)
      && p.live == s.live - (Ids(t) * Ids(s1.lists.connections))
      && p.active == s.active - Ids(DeadOf(s.lists.connections, s.live)) - Ids(t)
      && p.stamps == s.stamps && p.counter == s.counter
  {
    DropDeadKeepsLive(s);
  }

  /** What a call hands back, with the state it leaves. */
  datatype Taken = Taken(result: Acquired, state: State)

  /** The last idle connection is popped, marked in use and made active. */
  function Lend(s: State, key: String): State
    requires s.lists.idle != []
  {
    s.(lists := Popped(s.lists), active := s.active[Last(s.lists.idle) := key])
  }

  /** createNewConnection on the state: the counter advances; a connection whose
      connect succeeds is appended in use, active and connected. */
  function Attempt(s: State, key: String, connects: set<nat>): Taken
  {
    var id := s.counter + 1;
    if id in connects then
      Taken(Got(id), State(Created(s.lists, id), s.active[id := key], s.live + {id}, s.stamps, id))
    else Taken(Failed(ConnectFailed), s.(counter := id))
  }

  /** The half of getConnection after the pool exists: reuse a live idle
      connection; else remove a dead one, and create below `maxSize` or wait. */
  function Take(s: State, key: String, maxSize: nat, connects: set<nat>): Taken
  {
    var l := s.lists;
    if l.idle != [] && Last(l.idle) in s.live then Taken(Got(Last(l.idle)), Lend(s, key))
    else
      var s1 := if l.idle == [] then s else Remove(Lend(s, key), Last(l.idle));
      if |s1.lists.connections| < maxSize then Attempt(s1, key, connects) else Taken(MustWait, s1)
  }

  /** The branches of getConnection: the most recently idled live connection is
      reused; a dead one is removed and leaves `activeConnections`, disconnecting
      no one; then a connection is created only below `maxSize`, and otherwise the
      caller waits. Whatever is handed out is connected, active and in use. */
  lemma TakeSpec(s: State, key: String, maxSize: nat, connects: set<nat>)
    ensures var l := s.lists; var t := Take(s, key, maxSize, connects);
      (t.result.Got? ==> t.result.id in t.state.live && t.result.id in t.state.active
                         && t.result.id in t.state.lists.inUse)
      && (l.idle != [] && Last(l.idle) in s.live ==>
            t.result == Got(Last(l.idle)) && t.state.lists == Popped(l) && t.state.live == s.live
            && t.state.active == s.active[Last(l.idle) := key] && t.state.counter == s.counter)
      && (!(l.idle != [] && Last(l.idle) in s.live) ==>
            var q := TakeIdle(l, s.live);
            var a := if l.idle == [] then s.active else s.active - {Last(l.idle)};
            t.state.stamps == s.stamps
            && if |q.connections| < maxSize then
                 t.state.counter == s.counter + 1
                 && (t.state.counter in connects ==>
                       t.result == Got(t.state.counter) && t.state.lists == Created(q, t.state.counter)
                       && t.state.active == a[t.state.counter := key] && t.state.live == s.live + {t.state.counter})
                 && (t.state.counter !in connects ==>
                       t.result == Failed(ConnectFailed) && t.state.lists == q
                       && t.state.active == a && t.state.live == s.live)
               else
                 t.result == MustWait && t.state.lists == q && t.state.counter == s.counter
                 && t.state.active == a && t.state.live == s.live)
  {
    var l := s.lists;
    if l.idle != [] && Last(l.idle) !in s.live {
      assert Lend(s, key).active - {Last(l.idle)} == s.active - {Last(l.idle)};
    }
  }

  /** One tick of waitForAvailableConnection on the state: an idle connection is
      taken without looking at its client; else one is created below `maxSize`;
      else the wait fails once it has timed out. */
  function Poll(s: State, key: String, maxSize: nat, connects: set<nat>, timedOut: bool): Taken
  {
    var l := s.lists;
    if l.idle != [] then Taken(Got(Last(l.idle)), Lend(s, key))
    else if |l.connections| < maxSize then Attempt(s, key, connects)
    else Taken(if timedOut then Failed(WaitTimeout) else MustWait, s)
  }

  /** Unlike getConnection, a polling tick hands out the last idle connection even
      when its client is dead, and only a full pool with no idle connection waits
      or times out. */
  lemma PollSpec(s: State, key: String, maxSize: nat, connects: set<nat>, timedOut: bool)
    ensures var l := s.lists; var t := Poll(s, key, maxSize, connects, timedOut);
      (l.idle != [] ==> t.result == Got(Last(l.idle)) && Last(l.idle) in t.state.lists.inUse
                        && t.state.active == s.active[Last(l.idle) := key] && t.state.live == s.live)
      && (t.result == MustWait <==> l.idle == [] && |l.connections| >= maxSize && !timedOut)
      && (t.result.Got? && l.idle == [] ==> t.result.id == s.counter + 1 && t.result.id in t.state.live)
      && t.state.stamps == s.stamps
  {
  }

  // ---- Pools ----

  /** The pool object built in getConnection for one server and account. What it
      is told about its server never changes; its lists and `lastUsed` do. */
  class HostPool {
    const key: String
    const host: String
    const port: int
    const ssl: bool
    const username: String
    const password: String
    const maxSize: nat
    const minSize: nat
    var connections: seq<nat>
    var idle: seq<nat>
    var inUse: set<nat>
    var lastUsed: int

    constructor(key: String, host: String, port: int, ssl: bool, username: String,
                password: String, maxSize: nat, minSize: nat, now: int)
      ensures this.key == key && this.host == host && this.port == port && this.ssl == ssl
      ensures this.username == username && this.password == password
      ensures this.maxSize == maxSize && this.minSize == minSize
      ensures connections == [] && idle == [] && inUse == {} && lastUsed == now
    {
      this.key := key;
      this.host := host;
      this.port := port;
      this.ssl := ssl;
      this.username := username;
      this.password := password;
      this.maxSize := maxSize;
      this.minSize := minSize;
      connections := [];
      idle := [];
      inUse := {};
      lastUsed := now;
    }

    function Snapshot(): Lists
      reads this
    {
      Lists(connections, idle, inUse)
    }
  }

  // ---- getStats and shutdown ----

  datatype PoolStats = PoolStats(key: String, total: nat, idle: nat, inUse: nat, maxSize: nat, minSize: nat)

  datatype Stats = Stats(pools: map<String, PoolStats>, totalConnections: nat, totalIdle: nat, totalInUse: nat)

  function StatsOf(p: HostPool): PoolStats
    reads p
  {
    PoolStats(p.key, |p.connections|, |p.idle|, |p.inUse|, p.maxSize, p.minSize)
  }

  datatype Count = Total | Idle | InUse

  function Pick(s: PoolStats, c: Count): nat
  {
    match c
    case Total => s.total
    case Idle => s.idle
    case InUse => s.inUse
  }

  /** The sum of one count over the pools of `keys`. */
  function SumOf(keys: seq<String>, pools: map<String, HostPool>, c: Count): nat
    requires forall k :: k in keys ==> k in pools
    reads pools.Values
  {
    if keys == [] then 0
    else SumOf(keys[..|keys| - 1], pools, c) + Pick(StatsOf(pools[Last(keys)]), c)
  }

  lemma SumStep(keys: seq<String>, pools: map<String, HostPool>, i: nat)
    requires i < |keys| && forall k :: k in keys ==> k in pools
    ensures SumOf(keys[..i + 1], pools, Total) == SumOf(keys[..i], pools, Total) + |pools[keys[i]].connections|
    ensures SumOf(keys[..i + 1], pools, Idle) == SumOf(keys[..i], pools, Idle) + |pools[keys[i]].idle|
    ensures SumOf(keys[..i + 1], pools, InUse) == SumOf(keys[..i], pools, InUse) + |pools[keys[i]].inUse|
    ensures forall k :: k in keys[..i + 1] <==> k in keys[..i] || k == keys[i]
  {
    var s := keys[..i + 1];
    assert s[..|s| - 1] == keys[..i];
    PrefixSnoc(keys, i);
  }

  /** All connection ids the pools of `keys` list. */
  function Listed(keys: seq<String>, pools: map<String, HostPool>): set<nat>
    requires forall k :: k in keys ==> k in pools
    reads pools.Values
  {
    if keys == [] then {}
    else Listed(keys[..|keys| - 1], pools) + Ids(pools[Last(keys)].connections)
  }

  /** Listed gathers exactly the connections of the pools it is given. */
  lemma {:induction false} ListedSpec(keys: seq<String>, pools: map<String, HostPool>, x: nat)
    requires forall k :: k in keys ==> k in pools
    ensures x in Listed(keys, pools) <==> exists k :: k in keys && x in pools[k].connections
  {
    if keys != [] {
      var init := keys[..|keys| - 1];
      ListedSpec(init, pools, x);
      assert forall k :: k in keys <==> k in init || k == Last(keys) by {
        assert keys == init + [Last(keys)];
      }
    }
  }

  /** `order` lists the keys of `pools` once each, in the order a Map iterates them. */
  predicate Ordered(order: seq<String>, pools: map<String, HostPool>)
  {
    (forall k :: k in order ==> k in pools)
    && (forall k :: k in pools ==> k in order)
    && Distinct(order)
  }

  lemma OrderedDelete(order: seq<String>, pools: map<String, HostPool>, key: String)
    requires Ordered(order, pools)
    ensures Ordered(RemoveFirst(order, key), pools - {key})
  {
    var order2 := RemoveFirst(order, key);
    RemoveFirstDistinct(order, key);
    forall k | k in order2 ensures k in pools - {key} {
      RemoveFirstMembers(order, key, k);
    }
    forall k | k in pools - {key} ensures k in order2 {
      RemoveFirstMembers(order, key, k);
    }
  }

  /** The pool manager. */
  class ConnectionPool {
    const maxConnections: nat
    const minConnections: nat
    const idleTimeout: int
    /** The pools, by key. */
    var pools: map<String, HostPool>
    /** The keys of `pools` in insertion order. */
    var order: seq<String>
    /** `activeConnections`: each active id with the pool key of its connection. */
    var active: map<nat, String>
    var counter: nat
    /** The connections whose client reports `isConnected()`. */
    var live: set<nat>
    /** `idleSince` of the connection objects that have one. */
    var idleSince: map<nat, int>

    ghost predicate Valid()
      reads this
    {
      Ordered(order, pools) && forall k :: k in pools ==> pools[k].key == k
    }

    /** `pool`'s lists with the manager's per-connection state. */
    function StateOf(pool: HostPool): State
      reads this, pool
    {
      State(pool.Snapshot(), active, live, idleSince, counter)
    }

    /** `options.x || default`: an option of zero takes the default. */
    constructor(maxConnections: nat, minConnections: nat, idleTimeout: int)
      ensures Valid()
      ensures this.maxConnections == if maxConnections == 0 then 10 else maxConnections
      ensures this.minConnections == if minConnections == 0 then 2 else minConnections
      ensures this.idleTimeout == if idleTimeout == 0 then 5 * 60 * 1000 else idleTimeout
      ensures pools == map[] && order == [] && active == map[] && counter == 0
      ensures live == {} && idleSince == map[]
    {
      this.maxConnections := if maxConnections == 0 then 10 else maxConnections;
      this.minConnections := if minConnections == 0 then 2 else minConnections;
      this.idleTimeout := if idleTimeout == 0 then 5 * 60 * 1000 else idleTimeout;
      pools := map[];
      order := [];
      active := map[];
      counter := 0;
      live := {};
      idleSince := map[];
    }

    /** createNewConnection: the counter always advances, so the id is larger than
        any handed out before; a connection whose connect fails leaves no trace,
        one that succeeds is appended to the pool, in use and active. */
    method CreateNewConnection(pool: HostPool, connects: set<nat>) returns (r: Result<nat>)
      modifies this, pool
      ensures counter == old(counter) + 1
      ensures pools == old(pools) && order == old(order) && idleSince == old(idleSince)
      ensures pool.lastUsed == old(pool.lastUsed)
      ensures counter in connects ==>
        r == Ok(counter) && pool.Snapshot() == Created(old(pool.Snapshot()), counter)
        && active == old(active)[counter := pool.key] && live == old(live) + {counter}
      ensures counter !in connects ==>
        r == Err(ConnectFailed) && pool.Snapshot() == old(pool.Snapshot())
        && active == old(active) && live == old(live)
    {
      counter := counter + 1;
      if counter in connects {
        pool.connections := pool.connections + [counter];
        pool.inUse := pool.inUse + {counter};
        active := active[counter := pool.key];
        live := live + {counter};
        r := Ok(counter);
      } else {
        r := Err(ConnectFailed);
      }
    }

    /** removeConnection: the first entry with the id leaves the connection list
        (its client is disconnected) and the idle list; the id is no longer in use
        nor active. */
    method RemoveConnection(pool: HostPool, id: nat)
      modifies this, pool
      ensures pool.Snapshot() == Removed(old(pool.Snapshot()), id)
      ensures active == old(active) - {id}
      ensures live == if id in old(pool.connections) then old(live) - {id} else old(live)
      ensures pools == old(pools) && order == old(order) && counter == old(counter)
      ensures idleSince == old(idleSince) && pool.lastUsed == old(pool.lastUsed)
    {
      if id in pool.connections {
        live := live - {id};
      }
      pool.connections := RemoveFirst(pool.connections, id);
      pool.idle := RemoveFirst(pool.idle, id);
      pool.inUse := pool.inUse - {id};
      active := active - {id};
    }

    /** The client of a connection closes, ends or fails on its own: its socket
        handlers clear `connected`, and nothing the pool keeps changes. */
    method ClientClosed(id: nat)
      modifies this
      ensures live == old(live) - {id}
      ensures pools == old(pools) && order == old(order) && active == old(active)
      ensures counter == old(counter) && idleSince == old(idleSince)
    {
      live := live - {id};
    }

    /** releaseConnection: an id that is not active, or whose pool is gone, changes
        nothing. Otherwise the id is no longer in use nor active; a connection
        whose client is gone is removed, a live one is stamped idle now and
        appended to both the idle list and the connection list. */
    method ReleaseConnection(id: nat, now: int)
      modifies this, if id in active && active[id] in pools then {pools[active[id]]} else {}
      ensures id !in old(active) || old(active)[id] !in old(pools) ==>
        unchanged(this) && unchanged(old(pools).Values)
      ensures id in old(active) && old(active)[id] in old(pools) ==>
        var pool := old(pools)[old(active)[id]];
        active == old(active) - {id} && pools == old(pools) && order == old(order)
        && counter == old(counter) && live == old(live) && pool.lastUsed == old(pool.lastUsed)
        && (id !in old(live) ==>
              pool.Snapshot() == Removed(old(pool.Snapshot()), id) && idleSince == old(idleSince))
        && (id in old(live) ==>
              pool.Snapshot() == Idled(old(pool.Snapshot()), id) && idleSince == old(idleSince)[id := now])
      ensures id in old(active) && old(active)[id] in old(pools) ==>
        forall p :: p in old(pools).Values && p != old(pools)[old(active)[id]] ==> unchanged(p)
    {
      if id !in active {
        return;
      }
      var key := active[id];
      if key !in pools {
        return;
      }
      var pool := pools[key];
      ghost var l0 := pool.Snapshot();
      pool.inUse := pool.inUse - {id};
      active := active - {id};
      if id !in live {
        RemoveConnection(pool, id);
        assert pool.Snapshot() == Removed(l0, id);
        return;
      }
      idleSince := idleSince[id := now];
      pool.idle := pool.idle + [id];
      pool.connections := pool.connections + [id];
      assert pool.Snapshot() == Idled(l0, id);
    }

    /** The half of getConnection after the pool exists: `lastUsed` is now; the last
        idle connection is handed out when its client is live and a dead one is
        removed; then, while the pool has fewer than `maxSize` connections, a new
        one is created, and otherwise the caller must wait. */
    method Acquire(pool: HostPool, now: int, connects: set<nat>) returns (r: Acquired)
      modifies this, pool
      ensures Taken(r, StateOf(pool)) == Take(old(StateOf(pool)), pool.key, pool.maxSize, connects)
      ensures pools == old(pools) && order == old(order) && pool.lastUsed == now
    {
      ghost var s0 := StateOf(pool);
      pool.lastUsed := now;
      if pool.idle != [] {
        var id := Last(pool.idle);
        pool.idle := pool.idle[..|pool.idle| - 1];
        pool.inUse := pool.inUse + {id};
        active := active[id := pool.key];
        assert StateOf(pool) == Lend(s0, pool.key);
        if id in live {
          return Got(id);
        }
        RemoveConnection(pool, id);
        assert StateOf(pool) == Remove(Lend(s0, pool.key), id);
      }
      ghost var s1 := StateOf(pool);
      if |pool.connections| < pool.maxSize {
        var c := CreateNewConnection(pool, connects);
        r := if c.Ok? then Got(c.value) else Failed(c.error);
        assert Taken(r, StateOf(pool)) == Attempt(s1, pool.key, connects);
      } else {
        r := MustWait;
      }
    }

    /** One 100 ms tick of waitForAvailableConnection, started at `start`: an idle
        connection is taken without looking at its client; otherwise one is
        created while there is room; otherwise, past the timeout, the wait fails. */
    method PollTick(pool: HostPool, now: int, start: int, connects: set<nat>) returns (r: Acquired)
      modifies this, pool
      ensures Taken(r, StateOf(pool)) == Poll(old(StateOf(pool)), pool.key, pool.maxSize, connects, now - start > WaitLimit)
      ensures pools == old(pools) && order == old(order) && pool.lastUsed == old(pool.lastUsed)
    {
      if pool.idle != [] {
        var id := Last(pool.idle);
        pool.idle := pool.idle[..|pool.idle| - 1];
        pool.inUse := pool.inUse + {id};
        active := active[id := pool.key];
        r := Got(id);
      } else if |pool.connections| < pool.maxSize {
        var c := CreateNewConnection(pool, connects);
        r := if c.Ok? then Got(c.value) else Failed(c.error);
      } else if now - start > WaitLimit {
        r := Failed(WaitTimeout);
      } else {
        r := MustWait;
      }
    }

    /** getConnection: the pool for the key is created on first use, with the
        caller's password and the manager's size limits, and topped up to
        `minSize`; a pool that exists is used as it is, whatever password the
        caller gives. */
    method GetConnection(host: String, port: int, ssl: bool, username: String, password: String,
                         now: int, connects: set<nat>) returns (r: Acquired)
      requires Valid()
      modifies this, pools.Values
      ensures Valid()
      ensures var key := PoolKey(host, port, ssl, username);
        key in pools
        && (key in old(pools) ==> pools == old(pools) && order == old(order))
        && (key !in old(pools) ==>
              fresh(pools[key]) && pools == old(pools)[key := pools[key]] && order == old(order) + [key]
              && pools[key].key == key && pools[key].host == host && pools[key].port == port
              && pools[key].ssl == ssl && pools[key].username == username
              && pools[key].password == password
              && pools[key].maxSize == maxConnections && pools[key].minSize == minConnections)
        && pools[key].lastUsed == now
      ensures var key := PoolKey(host, port, ssl, username);
        var s0 := if key in old(pools) then old(StateOf(pools[key]))
                  else Fill(State(Lists([], [], {}), old(active), old(live), old(idleSince), old(counter)),
                            key, minConnections, now, connects);
        Taken(r, StateOf(pools[key])) == Take(s0, key, pools[key].maxSize, connects)
      ensures forall p :: p in old(pools).Values && p != pools[PoolKey(host, port, ssl, username)] ==> unchanged(p)
    {
      var key := PoolKey(host, port, ssl, username);
      var pool: HostPool;
      if key in pools {
        pool := pools[key];
      } else {
        pool := new HostPool(key, host, port, ssl, username, password, maxConnections, minConnections, now);
        assert Ordered(order + [key], pools[key := pool]) by {
          assert forall k :: k in order + [key] <==> k in order || k == key;
        }
        pools := pools[key := pool];
        order := order + [key];
        EnsureMinConnections(pool, now, connects);
        assert StateOf(pool) == Fill(State(Lists([], [], {}), old(active), old(live), old(idleSince), old(counter)),
                                     key, minConnections, now, connects);
      }
      r := Acquire(pool, now, connects);
    }

    /** ensureMinConnections: when the pool has fewer than `minSize` connections the
        missing number are attempted, then every connection neither in use nor idle
        is stamped and made idle; with enough connections nothing changes. */
    method EnsureMinConnections(pool: HostPool, now: int, connects: set<nat>)
      modifies this, pool
      ensures StateOf(pool) == Fill(old(StateOf(pool)), pool.key, pool.minSize, now, connects)
      ensures pools == old(pools) && order == old(order) && pool.lastUsed == old(pool.lastUsed)
    {
      var needed := Needed(pool.Snapshot(), pool.minSize);
      if needed == 0 {
        return;
      }
      CreateMany(pool, needed, connects);
      MoveToIdle(pool, now);
    }

    /** The `needed` connection attempts of ensureMinConnections; failures are
        swallowed. */
    method CreateMany(pool: HostPool, needed: nat, connects: set<nat>)
      modifies this, pool
      ensures var made := Made(old(counter), needed, connects);
        pool.Snapshot() == old(pool.Snapshot()).(connections := old(pool.connections) + made,
                                                  inUse := old(pool.inUse) + Ids(made))
        && counter == old(counter) + needed
        && live == old(live) + Ids(made)
        && active == old(active) + Tagged(made, pool.key)
        && pools == old(pools) && order == old(order) && idleSince == old(idleSince)
        && pool.lastUsed == old(pool.lastUsed)
    {
      hide Made;
      ghost var c0 := counter;
      ghost var made: seq<nat> := [];
      MadeStep(c0, 0, connects);
      assert old(active) + Tagged(made, pool.key) == old(active);
      assert old(pool.connections) + made == old(pool.connections);
      var i := 0;
      while i < needed
        invariant 0 <= i <= needed && counter == c0 + i
        invariant made == Made(c0, i, connects)
        invariant pool.connections == old(pool.connections) + made
        invariant pool.inUse == old(pool.inUse) + Ids(made)
        invariant pool.idle == old(pool.idle)
        invariant live == old(live) + Ids(made)
        invariant active == old(active) + Tagged(made, pool.key)
        invariant pools == old(pools) && order == old(order) && idleSince == old(idleSince)
        invariant pool.lastUsed == old(pool.lastUsed)
      {
        var _ := CreateNewConnection(pool, connects);
        MadeStep(c0, i + 1, connects);
        i := i + 1;
        if counter in connects {
          IdsSnoc(made, counter);
          TaggedSnoc(old(active), made, counter, pool.key);
          AppendAssoc(old(pool.connections), made, [counter]);
          made := made + [counter];
        }
      }
    }

    /** The closing loop of ensureMinConnections. */
    method MoveToIdle(pool: HostPool, now: int)
      modifies this, pool
      ensures pool.Snapshot() == old(pool.Snapshot()).(idle := MoveIdle(old(pool.connections), old(pool.inUse), old(pool.idle)))
      ensures idleSince == StampMoved(old(idleSince), old(pool.connections), old(pool.inUse), old(pool.idle), now)
      ensures counter == old(counter) && active == old(active) && live == old(live)
      ensures pools == old(pools) && order == old(order) && pool.lastUsed == old(pool.lastUsed)
    {
      var conns := pool.connections;
      for j := 0 to |conns|
        invariant pool.connections == conns && pool.inUse == old(pool.inUse)
        invariant pool.idle == MoveIdle(conns[..j], old(pool.inUse), old(pool.idle))
        invariant idleSince == StampMoved(old(idleSince), conns[..j], old(pool.inUse), old(pool.idle), now)
        invariant counter == old(counter) && active == old(active) && live == old(live)
        invariant pools == old(pools) && order == old(order) && pool.lastUsed == old(pool.lastUsed)
      {
        assert conns[..j + 1][..j] == conns[..j];
        var c := conns[j];
        if c !in pool.inUse && c !in pool.idle {
          idleSince := idleSince[c := now];
          pool.idle := pool.idle + [c];
        }
      }
      assert conns[..|conns|] == conns;
    }

    /** removeConnection for each id of `ids` in turn. */
    method RemoveEach(pool: HostPool, ids: seq<nat>)
      modifies this, pool
      ensures StateOf(pool) == Drop(old(StateOf(pool)), ids)
      ensures pools == old(pools) && order == old(order) && pool.lastUsed == old(pool.lastUsed)
    {
      ghost var s0 := StateOf(pool);
      assert Ids([]) == {};
      assert Drop(s0, ids[..0]) == s0;
      for i := 0 to |ids|
        invariant StateOf(pool) == Drop(s0, ids[..i])
        invariant pools == old(pools) && order == old(order) && pool.lastUsed == old(pool.lastUsed)
      {
        assert ids[..i + 1] == ids[..i] + [ids[i]];
        DropSnoc(s0, ids[..i], ids[i]);
        RemoveConnection(pool, ids[i]);
      }
      assert ids[..|ids|] == ids;
    }

    /** The removals of checkConnectionsHealth: every entry whose client is gone,
        then expired idle connections, at most as many as the pool has above
        `minSize`. */
    method PrunePool(pool: HostPool, now: int)
      modifies this, pool
      ensures StateOf(pool) == Prune(old(StateOf(pool)), pool.minSize, now, idleTimeout)
      ensures pools == old(pools) && order == old(order) && pool.lastUsed == old(pool.lastUsed)
    {
      var dead := DeadOf(pool.connections, live);
      RemoveEach(pool, dead);
      var trim := ToTrim(pool.Snapshot(), pool.minSize, idleSince, now, idleTimeout);
      RemoveEach(pool, trim);
    }

    /** checkConnectionsHealth for one pool: every entry whose client is gone is
        removed; expired idle connections are removed, at most as many as the pool
        has above `minSize`; the pool is topped up; and an empty pool unused for
        more than ten minutes is dropped. */
    method CheckPoolHealth(key: String, now: int, connects: set<nat>)
      requires Valid() && key in pools
      modifies this, pools[key]
      ensures Valid()
      ensures var pool := old(pools)[key];
        var after := Fill(Prune(old(StateOf(pool)), pool.minSize, now, idleTimeout), pool.key, pool.minSize, now, connects);
        StateOf(pool) == after && pool.lastUsed == old(pool.lastUsed)
        && (if |after.lists.connections| == 0 && now - pool.lastUsed > EmptyPoolLimit
            then pools == old(pools) - {key} && order == RemoveFirst(old(order), key)
            else pools == old(pools) && order == old(order))
    {
      var pool := pools[key];
      PrunePool(pool, now);
      EnsureMinConnections(pool, now, connects);
      if |pool.connections| == 0 && now - pool.lastUsed > EmptyPoolLimit {
        OrderedDelete(order, pools, key);
        pools := pools - {key};
        order := RemoveFirst(order, key);
      }
    }

    /** checkConnectionsHealth: the check above for every pool, in insertion order;
        a pool is only ever dropped, never added. */
    method CheckConnectionsHealth(now: int, connects: set<nat>)
      requires Valid()
      modifies this, pools.Values
      ensures Valid()
      ensures pools.Keys <= old(pools).Keys
      ensures forall k :: k in pools ==> pools[k] == old(pools)[k]
      ensures counter >= old(counter)
    {
      var keys := order;
      for i := 0 to |keys|
        invariant Valid()
        invariant forall j :: i <= j < |keys| ==> keys[j] in pools
        invariant pools.Keys <= old(pools).Keys
        invariant forall k :: k in pools ==> pools[k] == old(pools)[k]
        invariant counter >= old(counter)
      {
        CheckPoolHealth(keys[i], now, connects);
      }
    }

    /** getStats: each pool's counts, and the totals summed over the pools. */
    method GetStats() returns (s: Stats)
      requires Valid()
      ensures s.pools.Keys == pools.Keys
      ensures forall k :: k in pools ==> s.pools[k] == StatsOf(pools[k])
      ensures s.totalConnections == SumOf(order, pools, Total)
      ensures s.totalIdle == SumOf(order, pools, Idle)
      ensures s.totalInUse == SumOf(order, pools, InUse)
    {
      var m: map<String, PoolStats> := map[];
      var total, idle, inUse := 0, 0, 0;
      for i := 0 to |order|
        invariant forall k :: k in m <==> k in order[..i]
        invariant forall k :: k in m ==> k in pools && m[k] == StatsOf(pools[k])
        invariant total == SumOf(order[..i], pools, Total)
        invariant idle == SumOf(order[..i], pools, Idle)
        invariant inUse == SumOf(order[..i], pools, InUse)
      {
        var st := StatsOf(pools[order[i]]);
        SumStep(order, pools, i);
        m := m[order[i] := st];
        total := total + st.total;
        idle := idle + st.idle;
        inUse := inUse + st.inUse;
      }
      assert order[..|order|] == order;
      s := Stats(m, total, idle, inUse);
    }

    /** shutdown: every listed connection's client is disconnected and the pools
        and the active connections are forgotten. The counter goes on. */
    method Shutdown()
      requires Valid()
      modifies this
      ensures Valid()
      ensures pools == map[] && order == [] && active == map[]
      ensures forall k, x :: k in old(pools) && x in old(pools)[k].connections ==> x !in live
      ensures live == old(live) - Listed(old(order), old(pools))
      ensures counter == old(counter) && idleSince == old(idleSince)
    {
      var alive := live;
      for i := 0 to |order|
        invariant alive == live - Listed(order[..i], pools)
      {
        assert order[..i + 1][..i] == order[..i];
        alive := alive - Ids(pools[order[i]].connections);
      }
      assert order[..|order|] == order;
      forall k, x | k in pools && x in pools[k].connections ensures x !in alive {
        ListedSpec(order, pools, x);
      }
      live := alive;
      pools := map[];
      order := [];
      active := map[];
    }
  }
}
