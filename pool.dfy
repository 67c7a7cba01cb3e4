/**
 * The per-user WebSocket connection pool of the tunnel (ConnectionPool in
 * golang/main.go): connections are appended on connect, swap-removed on
 * disconnect, and picked round-robin with a NextIndex cursor. The locks
 * are left out; the operations are sequential.
 */
module Pool {
  import opened Wrappers

  /** The identity of a `*websocket.Conn`. */
  type ConnId = nat

  /** A pooled connection (its write mutex and LastActive time are not modelled). */
  datatype UserConnection = UserConnection(conn: ConnId, userId: string)

  /** One user's connections and round-robin cursor. */
  datatype UserConnections = UserConnections(connections: seq<UserConnection>, nextIndex: nat)

  datatype PoolError = NoAvailableClient

  /** The index of the first pooled connection on `conn`, if any. */
  function FirstIndexOf(cs: seq<UserConnection>, conn: ConnId): (r: Option<nat>)
    ensures r.Some? ==> r.value < |cs| && cs[r.value].conn == conn
    ensures r.Some? ==> forall j :: 0 <= j < r.value ==> cs[j].conn != conn
    ensures r.None? ==> forall j :: 0 <= j < |cs| ==> cs[j].conn != conn
  {
    if cs == [] then None
    else if cs[0].conn == conn then Some(0)
    else
      match FirstIndexOf(cs[1..], conn)
      case None => None
      case Some(i) => Some(i + 1)
  }

  /** Move the last element into slot `i` and truncate. */
  function SwapRemove(cs: seq<UserConnection>, i: nat): (r: seq<UserConnection>)
    requires i < |cs|
    ensures |r| == |cs| - 1
  {
    cs[i := cs[|cs| - 1]][..|cs| - 1]
  }

  /** Swap-removal takes exactly the one element out of the multiset. */
  lemma SwapRemoveMultiset(cs: seq<UserConnection>, i: nat)
    requires i < |cs|
    ensures multiset(SwapRemove(cs, i)) == multiset(cs) - multiset{cs[i]}
  {
    var n := |cs|;
    var last := cs[n - 1];
    assert cs == cs[..n - 1] + [last];
    if i < n - 1 {
      var init := cs[..n - 1];
      assert SwapRemove(cs, i) == init[i := last];
      assert multiset(init[i := last]) == multiset(init) - multiset{init[i]} + multiset{last};
    } else {
      assert SwapRemove(cs, i) == cs[..n - 1];
    }
  }

  /** The connections left after RemoveConnection's search-and-remove. */
  function RemoveFirst(cs: seq<UserConnection>, conn: ConnId): seq<UserConnection> {
    match FirstIndexOf(cs, conn)
    case None => cs
    case Some(i) => SwapRemove(cs, i)
  }

  /**
   * Removing leaves the multiset of connections minus the first one on
   * `conn`, or unchanged when there is none; every other pooled connection
   * stays, and no connection is invented.
   */
  lemma RemoveFirstMultiset(cs: seq<UserConnection>, conn: ConnId)
    ensures FirstIndexOf(cs, conn).None? ==> RemoveFirst(cs, conn) == cs
    ensures FirstIndexOf(cs, conn).Some? ==>
      var i := FirstIndexOf(cs, conn).value;
      && |RemoveFirst(cs, conn)| == |cs| - 1
      && multiset(RemoveFirst(cs, conn)) == multiset(cs) - multiset{cs[i]}
    ensures forall uc :: uc in RemoveFirst(cs, conn) ==> uc in cs
  {
    if FirstIndexOf(cs, conn).Some? {
      var i := FirstIndexOf(cs, conn).value;
      SwapRemoveMultiset(cs, i);
      assert forall uc :: uc in RemoveFirst(cs, conn) ==> uc in multiset(cs);
    }
  }

  /** GetConnection's choice and the entry afterwards. */
  function Pick(e: UserConnections): (r: (UserConnection, UserConnections))
    requires |e.connections| > 0
    ensures r.0 == e.connections[e.nextIndex % |e.connections|]
    ensures r.1.connections == e.connections
    ensures r.1.nextIndex < |e.connections|
  {
    var n := |e.connections|;
    (e.connections[e.nextIndex % n], e.(nextIndex := (e.nextIndex + 1) % n))
  }

  /** The connections `k` consecutive GetConnection calls return, with no add or remove between. */
  function Picks(e: UserConnections, k: nat): seq<UserConnection>
    requires |e.connections| > 0
    decreases k
  {
    if k == 0 then [] else [Pick(e).0] + Picks(Pick(e).1, k - 1)
  }

  lemma MulAtLeast(k: int, n: int)
    requires k >= 1 && n > 0
    ensures k * n >= n
  {
  }

  /** Division with remainder is unique. */
  lemma ModUnique(x: int, n: int, q: int, r: int)
    requires n > 0 && 0 <= r < n && x == q * n + r
    ensures x % n == r
  {
    var d, m := x / n, x % n;
    assert x == d * n + m;
    assert (q - d) * n == m - r;
    if q > d {
      MulAtLeast(q - d, n);
    } else if q < d {
      MulAtLeast(d - q, n);
    }
  }

  lemma ModOfMod(a: nat, j: nat, n: nat)
    requires n > 0
    ensures (a + j) % n == (a % n + j) % n
  {
    var r, t := (a % n + j) % n, (a % n + j) / n;
    assert a % n + j == t * n + r;
    assert a == (a / n) * n + a % n;
    assert a + j == (a / n + t) * n + r;
    ModUnique(a + j, n, a / n + t, r);
  }

  lemma ModWrap(s: nat, j: nat, n: nat)
    requires s < n && j < n
    ensures (s + j) % n == if s + j < n then s + j else s + j - n
  {
    if s + j < n {
      ModUnique(s + j, n, 0, s + j);
    } else {
      ModUnique(s + j, n, 1, s + j - n);
    }
  }

  /** Call j of a run returns connection (NextIndex + j) mod n. */
  lemma {:induction false} PicksAt(e: UserConnections, k: nat, j: nat)
    requires |e.connections| > 0 && j < k
    ensures |Picks(e, k)| == k
    ensures Picks(e, k)[j] == e.connections[(e.nextIndex + j) % |e.connections|]
    decreases k
  {
    var n := |e.connections|;
    if j == 0 {
      PicksLength(e, k);
    } else {
      PicksAt(Pick(e).1, k - 1, j - 1);
      ModOfMod(e.nextIndex + 1, j - 1, n);
    }
  }

  lemma {:induction false} PicksLength(e: UserConnections, k: nat)
    requires |e.connections| > 0
    ensures |Picks(e, k)| == k
    decreases k
  {
    if k > 0 { PicksLength(Pick(e).1, k - 1); }
  }

  lemma RotationAt(cs: seq<UserConnection>, s: nat, j: nat)
    requires s < |cs| && j < |cs|
    ensures (cs[s..] + cs[..s])[j] == cs[(s + j) % |cs|]
  {
    var n := |cs|;
    ModWrap(s, j, n);
    if s + j < n {
      assert (cs[s..] + cs[..s])[j] == cs[s..][j];
    } else {
      assert (cs[s..] + cs[..s])[j] == cs[..s][j - (n - s)];
    }
  }

  lemma PickRotatedAt(e: UserConnections, j: nat)
    requires 0 <= j < |e.connections|
    ensures var cs := e.connections;
      |Picks(e, |cs|)| == |cs|
      && Picks(e, |cs|)[j] == (cs[e.nextIndex % |cs|..] + cs[..e.nextIndex % |cs|])[j]
  {
    var cs := e.connections;
    var n := |cs|;
    PicksAt(e, n, j);
    ModOfMod(e.nextIndex, j, n);
    RotationAt(cs, e.nextIndex % n, j);
  }

  /**
   * Round-robin fairness: n consecutive calls on n connections return the
   * connection list rotated to start at the cursor.
   */
  lemma RoundRobinRotation(e: UserConnections)
    requires |e.connections| > 0
    ensures Picks(e, |e.connections|)
      == e.connections[e.nextIndex % |e.connections|..] + e.connections[..e.nextIndex % |e.connections|]
  {
    var cs := e.connections;
    var n, s := |cs|, e.nextIndex % |cs|;
    var rot := cs[s..] + cs[..s];
    var p := Picks(e, n);
    PicksLength(e, n);
    assert |p| == |rot|;
    forall j | 0 <= j < n ensures p[j] == rot[j] {
      PickRotatedAt(e, j);
    }
  }

  /** Hence n consecutive calls return each connection exactly once. */
  lemma RoundRobinFair(e: UserConnections)
    requires |e.connections| > 0
    ensures multiset(Picks(e, |e.connections|)) == multiset(e.connections)
  {
    RoundRobinRotation(e);
    RotationMultiset(e.connections, e.nextIndex % |e.connections|);
  }

  lemma RotationMultiset<T>(cs: seq<T>, s: nat)
    requires s <= |cs|
    ensures multiset(cs[s..] + cs[..s]) == multiset(cs)
  {
    assert cs == cs[..s] + cs[s..];
  }

  /** The pool: user id to that user's connections. */
  class ConnectionPool {
    var users: map<string, UserConnections>

    /** No user entry is ever left without connections. */
    ghost predicate Valid()
      reads this
    {
      forall u :: u in users ==> |users[u].connections| > 0
    }

    /** `globalPool`: an empty pool. */
    constructor ()
      ensures Valid() && users == map[]
    {
      users := map[];
    }

    /** AddConnection: append at the end of the user's list, creating the entry (cursor 0) if absent. */
    method AddConnection(userId: string, conn: ConnId) returns (uc: UserConnection)
      modifies this
      ensures old(Valid()) ==> Valid()
      ensures uc == UserConnection(conn, userId)
      ensures users.Keys == old(users).Keys + {userId}
      ensures userId in old(users) ==>
        users[userId] == old(users)[userId].(connections := old(users)[userId].connections + [uc])
      ensures userId !in old(users) ==> users[userId] == UserConnections([uc], 0)
      ensures forall u :: u in old(users) && u != userId ==> users[u] == old(users)[u]
    {
      uc := UserConnection(conn, userId);
      var userConns: UserConnections;
      if userId in users {
        userConns := users[userId];
      } else {
        userConns := UserConnections([], 0);
        users := users[userId := userConns];
      }
      userConns := userConns.(connections := userConns.connections + [uc]);
      users := users[userId := userConns];
    }

    /**
     * RemoveConnection: nothing for an absent user; otherwise swap-remove the
     * first connection on `conn`, and delete the user once the list is empty.
     */
    method RemoveConnection(userId: string, conn: ConnId)
      modifies this
      ensures old(Valid()) ==> Valid()
      ensures userId !in old(users) ==> users == old(users)
      ensures userId in old(users) ==>
        var e := old(users)[userId];
        var rest := RemoveFirst(e.connections, conn);
        users == if rest == [] then old(users) - {userId} else old(users)[userId := e.(connections := rest)]
    {
      if userId !in users {
        return;
      }
      var userConns := users[userId];
      var cs := userConns.connections;
      var i := 0;
      while i < |cs|
        invariant 0 <= i <= |cs|
        invariant forall j :: 0 <= j < i ==> cs[j].conn != conn
      {
        if cs[i].conn == conn {
          cs := cs[i := cs[|cs| - 1]];
          cs := cs[..|cs| - 1];
          break;
        }
        i := i + 1;
      }
      assert cs == RemoveFirst(userConns.connections, conn);
      if |cs| == 0 {
        users := users - {userId};
      } else {
        users := users[userId := userConns.(connections := cs)];
      }
    }

    /**
     * GetConnection: an error for an absent user or an empty list; otherwise
     * the connection at the cursor, advancing the cursor modulo the count.
     * In a valid pool the empty-list branch is unreachable: the error means
     * exactly that the user has no entry.
     */
    method GetConnection(userId: string) returns (r: Result<UserConnection, PoolError>)
      modifies this
      ensures old(Valid()) ==> Valid()
      ensures old(Valid()) ==> (r.Err? <==> userId !in old(users))
      ensures userId !in old(users) || old(users)[userId].connections == [] ==>
        r == Err(NoAvailableClient) && users == old(users)
      ensures userId in old(users) && old(users)[userId].connections != [] ==>
        var (picked, after) := Pick(old(users)[userId]);
        r == Ok(picked) && users == old(users)[userId := after]
    {
      if userId !in users {
        return Err(NoAvailableClient);
      }
      var userConns := users[userId];
      var numConns := |userConns.connections|;
      if numConns == 0 {
        return Err(NoAvailableClient);
      }
      var idx := userConns.nextIndex % numConns;
      var selected := userConns.connections[idx];
      users := users[userId := userConns.(nextIndex := (userConns.nextIndex + 1) % numConns)];
      r := Ok(selected);
    }
  }
}
