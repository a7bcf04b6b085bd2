/** What each operation of the specification answers and leaves behind, in terms of the leases, the policy
    and the pool alone: none of the functions that the specification is made of appears in a contract. */
module OperationMeanings {
  import opened Hosts
  import opened Naming
  import opened Leases
  import opened YamlParser
  import opened AllocatorSpec
  import opened AllocatorRuns

  /** The name under which an SA asks. */
  predicate AsksAs(sa: Sa, user: string) {
    match sa.identity
    case Some(name) => user == name
    case None => user == "anon-" + Decimal(sa.uid)
  }

  predicate LooksAnonymous(user: string) {
    |user| >= 5 && forall i | 0 <= i < 5 :: user[i] == "anon-"[i]
  }

  /** The IPv4 address with this number. */
  function AddressOf(v: u32): Host {
    Host(Inet, [v / 0x100_0000, v / 0x1_0000 % 256, v / 0x100 % 256, v % 256])
  }

  /** No dynamic lease holds the address. */
  predicate Free(s: State, v: u32) {
    forall u | u in s.leases && !s.leases[u].fixed :: s.leases[u].ip != AddressOf(v)
  }

  lemma FreeIsNotTaken(s: State, v: u32)
    ensures Free(s, v) <==> U32ToHost(v) !in Taken(s.leases)
  {
    AddressWrites(Little, v);
  }

  /** The list names the pool at this place. */
  predicate NamesPool(c: Config, pools: PoolList, i: nat) {
    pools.Some? && i < |pools.value| && pools.value[i] == Some(c.poolName)
  }

  /** A run is its operations in their order, each from the state that those before it have left. */
  lemma RunsInOrder(c: Config, s: State, ops: seq<Op>, op: Op)
    ensures Exec(c, s, []) == (s, [])
    ensures var (t, outs) := Exec(c, s, ops);
            Exec(c, s, ops + [op]) == (Apply(c, t, op).0, outs + [Apply(c, t, op).1])
  {
    var t := Exec(c, s, ops).0;
    ExecConcat(c, s, ops, [op]);
    OneOperation(c, t, op);
  }

  lemma OneOperation(c: Config, s: State, op: Op)
    ensures Exec(c, s, [op]) == (Apply(c, s, op).0, [Apply(c, s, op).1])
  {
    hide Apply;
    var (t, out) := Apply(c, s, op);
    assert [op][0] == op && [op][1..] == [] && [out] + [] == [out];
    assert Exec(c, t, []) == (t, []);
    assert Exec(c, s, [op]) == (Exec(c, t, [op][1..]).0, [out] + Exec(c, t, [op][1..]).1);
  }

  // ---- acquire ----

  /** A pool list that does not name the pool of this plugin, or a missing SA: no answer, no change. */
  lemma OtherPoolsAreIgnored(c: Config, s: State, pools: PoolList, sa: Option<Sa>, now: int, cloneOk: bool)
    requires sa.None? || forall i: nat :: !NamesPool(c, pools, i)
    ensures Apply(c, s, Acquire(pools, sa, now, cloneOk)) == (s, Address(None))
  {
    if pools.Some? && Some(c.poolName) in pools.value {
      var i: nat :| i < |pools.value| && pools.value[i] == Some(c.poolName);
      assert NamesPool(c, pools, i);
    }
  }

  /** A user with a lease gets its address again.  The lease moves to the uid that asks and its clock
      starts anew; nobody else's changes. */
  lemma AcquireReuses(c: Config, s: State, pools: PoolList, i: nat, sa: Sa, user: string, now: int, cloneOk: bool)
    requires NamesPool(c, pools, i) && AsksAs(sa, user) && user in s.leases
    ensures var (t, out) := Apply(c, s, Acquire(pools, Some(sa), now, cloneOk));
            && out == Address(if cloneOk then Some(s.leases[user].ip) else None)
            && t.policy == s.policy && t.leases.Keys == s.leases.Keys
            && t.leases[user] == LeaseRec(sa.uid, s.leases[user].ip, s.leases[user].fixed, now)
            && forall u | u in s.leases && u != user :: t.leases[u] == s.leases[u]
  {
    NameIs(sa);
  }

  /** A user without a lease whom the policy gives an address, and who does not look anonymous, gets that
      address in a new fixed lease, or nothing at all. */
  lemma AcquireFixed(c: Config, s: State, pools: PoolList, i: nat, sa: Sa, user: string, now: int, cloneOk: bool)
    requires NamesPool(c, pools, i) && AsksAs(sa, user) && user !in s.leases
    requires user in s.policy.users && !LooksAnonymous(user)
    ensures var l := LeaseRec(sa.uid, s.policy.users[user], true, now);
            Apply(c, s, Acquire(pools, Some(sa), now, cloneOk))
              == if cloneOk then (State(s.leases[user := l], s.policy), Address(Some(l.ip))) else (s, Address(None))
  {
    NameIs(sa);
    AnonIs(user);
  }

  /** Any other user without a lease gets the least free address of the pool in a new dynamic lease, or
      nothing at all. */
  lemma AcquireDynamic(c: Config, s: State, pools: PoolList, i: nat, sa: Sa, user: string, now: int, cloneOk: bool,
                       v: u32)
    requires NamesPool(c, pools, i) && AsksAs(sa, user) && user !in s.leases
    requires user !in s.policy.users || LooksAnonymous(user)
    requires c.pool.Some? && c.pool.value.lo <= v <= c.pool.value.hi && Free(s, v)
    requires forall w: u32 | c.pool.value.lo <= w < v :: !Free(s, w)
    ensures var l := LeaseRec(sa.uid, AddressOf(v), false, now);
            Apply(c, s, Acquire(pools, Some(sa), now, cloneOk))
              == if cloneOk then (State(s.leases[user := l], s.policy), Address(Some(l.ip))) else (s, Address(None))
  {
    NameIs(sa);
    AnonIs(user);
    LeastFree(c, s, v);
    hide FirstFree, Taken, Free, IsAnon, EffectiveName;
  }

  lemma LeastFree(c: Config, s: State, v: u32)
    requires c.pool.Some? && c.pool.value.lo <= v <= c.pool.value.hi && Free(s, v)
    requires forall w: u32 | c.pool.value.lo <= w < v :: !Free(s, w)
    ensures FirstFree(c.pool.value.lo, c.pool.value.hi, Taken(s.leases)) == Some(AddressOf(v))
  {
    var lo, hi := c.pool.value.lo, c.pool.value.hi;
    FirstFreeIs(lo, hi, Taken(s.leases));
    forall w: u32 ensures Free(s, w) <==> U32ToHost(w) !in Taken(s.leases) {
      FreeIsNotTaken(s, w);
    }
    hide Taken, Free;
    AddressWrites(Little, v);
    var least := FirstFree(lo, hi, Taken(s.leases));
    assert least.Some?;
    assert HostToU32(least.value) == v;
  }

  /** Without a pool, or with no free address in it, such a user gets nothing, and nothing changes. */
  lemma AcquireFindsNothing(c: Config, s: State, pools: PoolList, i: nat, sa: Sa, user: string, now: int, cloneOk: bool)
    requires NamesPool(c, pools, i) && AsksAs(sa, user) && user !in s.leases
    requires user !in s.policy.users || LooksAnonymous(user)
    requires c.pool.None? || forall v: u32 | c.pool.value.lo <= v <= c.pool.value.hi :: !Free(s, v)
    ensures Apply(c, s, Acquire(pools, Some(sa), now, cloneOk)) == (s, Address(None))
  {
    NameIs(sa);
    AnonIs(user);
    if c.pool.Some? && c.pool.value.lo <= c.pool.value.hi {
      FirstFreeIs(c.pool.value.lo, c.pool.value.hi, Taken(s.leases));
      forall w: u32 ensures Free(s, w) <==> U32ToHost(w) !in Taken(s.leases) {
        FreeIsNotTaken(s, w);
      }
    }
    hide FirstFree, Taken, Free, IsAnon, EffectiveName;
  }

  // ---- release, updown, sweep, reload ----

  /** A release takes away exactly the lease held under the uid, and answers whether there was one; without
      an SA it answers no. */
  lemma ReleaseTakesAway(c: Config, s: State, sa: Option<Sa>)
    ensures var (t, out) := Apply(c, s, Release(sa));
            && t.policy == s.policy
            && (forall u :: u in t.leases <==> u in s.leases && (sa.None? || s.leases[u].uid != sa.value.uid))
            && (forall u | u in t.leases :: t.leases[u] == s.leases[u])
            && out == Answer(sa.Some? && exists u :: u in s.leases && s.leases[u].uid == sa.value.uid)
  {
  }

  /** The listener stays, whatever happens to the SA; only an SA that goes down takes its lease with it. */
  lemma UpdownKeepsListening(c: Config, s: State, sa: Option<Sa>, up: bool)
    ensures var (t, out) := Apply(c, s, Updown(sa, up));
            && out == Answer(true) && t.policy == s.policy
            && (up || sa.None? ==> t == s)
            && (forall u :: u in t.leases <==> u in s.leases && (up || sa.None? || s.leases[u].uid != sa.value.uid))
            && (forall u | u in t.leases :: t.leases[u] == s.leases[u])
  {
  }

  /** A sweep keeps a lease, as it is, exactly when it is not older than the timeout or its SA is alive. */
  lemma SweepKeeps(c: Config, s: State, now: int, alive: set<u32>)
    ensures var (t, out) := Apply(c, s, Sweep(now, alive));
            && out == Nothing && t.policy == s.policy
            && (forall u :: u in t.leases <==>
                  u in s.leases && (now - s.leases[u].acquired <= c.timeout || s.leases[u].uid in alive))
            && (forall u | u in t.leases :: t.leases[u] == s.leases[u])
  {
  }

  /** A reload answers no and changes nothing when the file cannot be opened, or an error comes before the
      end of its events; otherwise it answers yes, replaces the policy and keeps the leases. */
  lemma ReloadIsAllOrNothing(c: Config, s: State, file: Option<seq<Event>>)
    ensures var (t, out) := Apply(c, s, Reload(file));
            && (file.Some? && ReadsToEnd(file.value) ==>
                  out == Answer(true) && t.leases == s.leases && Load(c.resolve, file) == Some(t.policy))
            && (file.None? || !ReadsToEnd(file.value) ==> out == Answer(false) && t == s)
  {
    LoadSucceedsExactly(c.resolve, file);
  }
}
