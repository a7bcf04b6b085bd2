/** What holds of the allocator over whole runs, proved about its specification. */
module AllocatorRuns {
  import opened Hosts
  import opened Naming
  import opened Leases
  import opened YamlParser
  import opened AllocatorSpec

  lemma {:induction false} ExecConcat(c: Config, s: State, a: seq<Op>, b: seq<Op>)
    ensures Exec(c, s, a + b).0 == Exec(c, Exec(c, s, a).0, b).0
    ensures |Exec(c, s, a).1| == |a|
    ensures Exec(c, s, a + b).1 == Exec(c, s, a).1 + Exec(c, Exec(c, s, a).0, b).1
    decreases |a|
  {
    if a == [] {
      assert a + b == b;
    } else {
      assert (a + b)[0] == a[0] && (a + b)[1..] == a[1..] + b;
      ExecConcat(c, Apply(c, s, a[0]).0, a[1..], b);
    }
  }

  /** The outcome of one operation in the middle of a run. */
  lemma OutAt(c: Config, s: State, ops: seq<Op>, i: nat)
    requires i < |ops|
    ensures |Exec(c, s, ops).1| == |ops|
    ensures Exec(c, s, ops).1[i] == Apply(c, Exec(c, s, ops[..i]).0, ops[i]).1
  {
    ExecConcat(c, s, ops[..i], ops[i..]);
    assert ops[..i] + ops[i..] == ops;
    ExecConcat(c, s, ops, []);
    ExecConcat(c, s, ops[..i], []);
  }

  // ---- who gets no address ----

  /** A claimed acquire fails exactly when there is no lease to reuse, no fixed address, and no
      address of the pool that is not held by a live dynamic lease. */
  lemma AcquireFailsExactly(c: Config, s: State, pools: PoolList, sa: Sa, now: int)
    requires Wf(c, s) && Claimed(c, pools)
    ensures Apply(c, s, Acquire(pools, Some(sa), now, true)).1 == Address(None) <==>
              && EffectiveName(sa) !in s.leases
              && !Served(s.policy, EffectiveName(sa))
              && (c.pool.None? || forall v: u32 | c.pool.value.lo <= v <= c.pool.value.hi ::
                    exists u :: u in s.leases && !s.leases[u].fixed && s.leases[u].ip == U32ToHost(v))
  {
    if c.pool.Some? && c.pool.value.lo <= c.pool.value.hi {
      FirstFreeIs(c.pool.value.lo, c.pool.value.hi, Taken(s.leases));
    }
  }

  // ---- stability of a user's address ----

  /** The operation does not release the uid under which the user holds a lease. */
  predicate Spares(c: Config, s: State, op: Op, user: string)
    requires user in s.leases
  {
    var l := s.leases[user];
    match op
    case Release(sa) => sa.Some? ==> sa.value.uid != l.uid
    case Updown(sa, up) => !up && sa.Some? ==> sa.value.uid != l.uid
    case Sweep(now, alive) => !Orphan(c, l, now, alive)
    case _ => true
  }

  /** No operation of the run releases the uid the user holds at that moment. */
  predicate SparesAll(c: Config, s: State, ops: seq<Op>, user: string)
    requires user in s.leases
    decreases |ops|
  {
    ops == [] ||
    (&& Spares(c, s, ops[0], user)
     && (user in Apply(c, s, ops[0]).0.leases ==> SparesAll(c, Apply(c, s, ops[0]).0, ops[1..], user)))
  }

  /** The operation is an acquire by this user that can succeed. */
  predicate AcquiredBy(c: Config, op: Op, user: string) {
    op.Acquire? && Claimed(c, op.pools) && op.sa.Some? && EffectiveName(op.sa.value) == user && op.cloneOk
  }

  lemma SparedOnce(c: Config, s: State, op: Op, user: string)
    requires user in s.leases && Spares(c, s, op, user)
    ensures var t := Apply(c, s, op).0;
            && user in t.leases
            && t.leases[user].ip == s.leases[user].ip && t.leases[user].fixed == s.leases[user].fixed
            && (AcquiredBy(c, op, user) ==>
                  && Apply(c, s, op).1 == Address(Some(s.leases[user].ip))
                  && t.leases[user].uid == op.sa.value.uid)
  {
  }

  /** As long as nothing releases the uid a user currently holds, every acquire by the user answers
      the same address, across reloads, sweeps, migrations and whatever the others do. */
  lemma {:induction false} AddressIsStable(c: Config, s: State, ops: seq<Op>, user: string)
    requires user in s.leases && SparesAll(c, s, ops, user)
    ensures var (t, outs) := Exec(c, s, ops);
            && user in t.leases
            && t.leases[user].ip == s.leases[user].ip && t.leases[user].fixed == s.leases[user].fixed
            && |outs| == |ops|
            && forall i | 0 <= i < |ops| && AcquiredBy(c, ops[i], user) :: outs[i] == Address(Some(s.leases[user].ip))
    decreases |ops|
  {
    if ops != [] {
      SparedOnce(c, s, ops[0], user);
      AddressIsStable(c, Apply(c, s, ops[0]).0, ops[1..], user);
      assert forall i | 0 < i < |ops| ::
          ops[i] == ops[1..][i - 1] && Exec(c, s, ops).1[i] == Exec(c, Apply(c, s, ops[0]).0, ops[1..]).1[i - 1];
    }
  }

  // ---- releasing again ----

  predicate Acquires(op: Op, uid: u32) {
    op.Acquire? && op.sa.Some? && op.sa.value.uid == uid
  }

  /** The operation lets go of a uid, or finds it already gone. */
  predicate LetsGo(op: Op, uid: u32) {
    || (op.Release? && op.sa.Some? && op.sa.value.uid == uid)
    || (op.Updown? && !op.up && op.sa.Some? && op.sa.value.uid == uid)
  }

  lemma {:induction false} GoneStaysGone(c: Config, s: State, ops: seq<Op>, uid: u32)
    requires !HasUid(s.leases, uid)
    requires forall i | 0 <= i < |ops| :: !Acquires(ops[i], uid)
    ensures !HasUid(Exec(c, s, ops).0.leases, uid)
    decreases |ops|
  {
    if ops != [] {
      assert !Acquires(ops[0], uid);
      GoneStaysGone(c, Apply(c, s, ops[0]).0, ops[1..], uid);
    }
  }

  /** The ways for a uid to go: an explicit release, a sweep that finds its lease overdue and its SA
      gone, and a migration of its user to another uid. */
  ghost predicate Ends(c: Config, names: u32 -> string, s: State, op: Op, uid: u32) {
    || LetsGo(op, uid)
    || (op.Sweep? && forall u | u in s.leases && s.leases[u].uid == uid :: Orphan(c, s.leases[u], op.now, op.alive))
    || (op.Acquire? && Claimed(c, op.pools) && op.sa.Some? && op.sa.value.uid != uid
        && EffectiveName(op.sa.value) == names(uid) && HasUid(s.leases, uid))
  }

  lemma EndedIsGone(c: Config, names: u32 -> string, s: State, op: Op, uid: u32)
    requires Named(names, s) && Fits(names, op) && Ends(c, names, s, op, uid)
    ensures !HasUid(Apply(c, s, op).0.leases, uid)
  {
  }

  /** Once a uid is gone, in whatever way, a later release of it changes nothing and says so, whatever
      happened in between and whoever holds its old address now. */
  lemma SecondReleaseIsHarmless(c: Config, names: u32 -> string, s: State, first: Op, between: seq<Op>, second: Op,
                                uid: u32)
    requires Named(names, s) && Fits(names, first) && Ends(c, names, s, first, uid)
    requires forall i | 0 <= i < |between| :: !Acquires(between[i], uid)
    requires LetsGo(second, uid)
    ensures var t := Exec(c, Apply(c, s, first).0, between).0;
            Apply(c, t, second) == (t, Answer(second.Updown?))
  {
    hide Ends, Apply, Exec;
    EndedIsGone(c, names, s, first, uid);
    GoneStaysGone(c, Apply(c, s, first).0, between, uid);
    ReleaseOfAbsent(c, Exec(c, Apply(c, s, first).0, between).0, second, uid);
  }

  lemma ReleaseOfAbsent(c: Config, s: State, op: Op, uid: u32)
    requires !HasUid(s.leases, uid) && LetsGo(op, uid)
    ensures Apply(c, s, op) == (s, Answer(op.Updown?))
  {
    assert WithoutUid(s.leases, uid) == s.leases;
  }

  // ---- the policy in force ----

  /** The policy of the last file that could be loaded, else the one before the run. */
  function LastLoaded(c: Config, before: Policy, ops: seq<Op>): Policy {
    if ops == [] then before
    else
      var op := ops[|ops| - 1];
      if op.Reload? && Load(c.resolve, op.file).Some? then Load(c.resolve, op.file).value
      else LastLoaded(c, before, ops[..|ops| - 1])
  }

  lemma {:induction false} PolicyIsLastLoaded(c: Config, s: State, ops: seq<Op>)
    ensures Exec(c, s, ops).0.policy == LastLoaded(c, s.policy, ops)
    decreases |ops|
  {
    if ops != [] {
      var front, op := ops[..|ops| - 1], ops[|ops| - 1];
      assert ops == front + [op];
      ExecConcat(c, s, front, [op]);
      PolicyIsLastLoaded(c, s, front);
      var t := Exec(c, s, front).0;
      assert Exec(c, t, [op]).0 == Exec(c, Apply(c, t, op).0, [op][1..]).0 == Apply(c, t, op).0;
    }
  }

  // ---- addresses never clash ----

  /** Across these policies no fixed address is given to two users, and none lies in the pool. */
  ghost predicate ConflictFree(c: Config, policies: set<Policy>) {
    && (forall p, q, u, v | p in policies && q in policies && Served(p, u) && Served(q, v) && u != v ::
          p.users[u] != q.users[v])
    && (forall p, u | p in policies && Served(p, u) :: !InPool(c, p.users[u]))
  }

  /** Every policy a run can put in force is among these. */
  ghost predicate OnlyLoads(c: Config, policies: set<Policy>, ops: seq<Op>) {
    forall i | 0 <= i < |ops| && ops[i].Reload? && Load(c.resolve, ops[i].file).Some? ::
      Load(c.resolve, ops[i].file).value in policies
  }

  /** Each fixed lease was granted by one of the policies, each dynamic one by the pool. */
  ghost predicate Granted(c: Config, policies: set<Policy>, s: State) {
    && s.policy in policies
    && forall u | u in s.leases && s.leases[u].fixed :: GrantedFixed(policies, u, s.leases[u].ip)
  }

  ghost predicate GrantedFixed(policies: set<Policy>, user: string, ip: Host) {
    exists p :: p in policies && Served(p, user) && p.users[user] == ip
  }

  ghost predicate Distinct(s: State) {
    forall u, v | u in s.leases && v in s.leases && u != v :: s.leases[u].ip != s.leases[v].ip
  }

  lemma ApplyKeepsGranted(c: Config, policies: set<Policy>, s: State, op: Op)
    requires Granted(c, policies, s) && OnlyLoads(c, policies, [op])
    ensures Granted(c, policies, Apply(c, s, op).0)
  {
    if op.Reload? {
      assert [op][0] == op;
    }
    if op.Acquire? && op.sa.Some? && Served(s.policy, EffectiveName(op.sa.value)) {
      assert GrantedFixed(policies, EffectiveName(op.sa.value), s.policy.users[EffectiveName(op.sa.value)]);
    }
  }

  lemma {:induction false} RunKeepsGranted(c: Config, policies: set<Policy>, s: State, ops: seq<Op>)
    requires Wf(c, s) && Granted(c, policies, s) && OnlyLoads(c, policies, ops)
    ensures Wf(c, Exec(c, s, ops).0) && Granted(c, policies, Exec(c, s, ops).0)
    decreases |ops|
  {
    if ops != [] {
      assert ops[0] == [ops[0]][0];
      assert OnlyLoads(c, policies, [ops[0]]);
      assert OnlyLoads(c, policies, ops[1..]);
      ApplyKeepsWf(c, s, ops[0]);
      ApplyKeepsGranted(c, policies, s, ops[0]);
      RunKeepsGranted(c, policies, Apply(c, s, ops[0]).0, ops[1..]);
    }
  }

  lemma GrantedIsDistinct(c: Config, policies: set<Policy>, s: State)
    requires ConflictFree(c, policies) && Wf(c, s) && Granted(c, policies, s)
    ensures Distinct(s)
  {
    forall u, v | u in s.leases && v in s.leases && u != v ensures s.leases[u].ip != s.leases[v].ip {
      if s.leases[u].fixed {
        var p :| p in policies && Served(p, u) && p.users[u] == s.leases[u].ip;
        if s.leases[v].fixed {
          var q :| q in policies && Served(q, v) && q.users[v] == s.leases[v].ip;
        }
      } else if s.leases[v].fixed {
        var q :| q in policies && Served(q, v) && q.users[v] == s.leases[v].ip;
      }
    }
  }

  /** At every point of every run all live leases have different addresses, also when some of them
      stem from older policies. */
  lemma AddressesNeverClash(c: Config, policies: set<Policy>, s: State, ops: seq<Op>)
    requires ConflictFree(c, policies) && Wf(c, s) && Granted(c, policies, s) && OnlyLoads(c, policies, ops)
    ensures Distinct(Exec(c, s, ops).0)
  {
    RunKeepsGranted(c, policies, s, ops);
    GrantedIsDistinct(c, policies, Exec(c, s, ops).0);
  }

  /** No acquire of a run answers an address that any of the policies fixes for another user,
      whether or not that user is connected. */
  lemma FixedAddressIsReserved(c: Config, policies: set<Policy>, s: State, ops: seq<Op>, i: nat, p: Policy,
                               user: string)
    requires ConflictFree(c, policies) && Wf(c, s) && Granted(c, policies, s) && OnlyLoads(c, policies, ops)
    requires i < |ops| && ops[i].Acquire? && ops[i].sa.Some? && EffectiveName(ops[i].sa.value) != user
    requires p in policies && Served(p, user)
    ensures |Exec(c, s, ops).1| == |ops| && Exec(c, s, ops).1[i] != Address(Some(p.users[user]))
  {
    OutAt(c, s, ops, i);
    RunKeepsGranted(c, policies, s, ops[..i]);
    NotSomeoneElses(c, policies, Exec(c, s, ops[..i]).0, ops[i], p, user);
  }

  /** One acquire never answers the fixed address of another user. */
  lemma NotSomeoneElses(c: Config, policies: set<Policy>, s: State, op: Op, p: Policy, u: string)
    requires ConflictFree(c, policies) && Wf(c, s) && Granted(c, policies, s)
    requires op.Acquire? && op.sa.Some? && p in policies && Served(p, u) && EffectiveName(op.sa.value) != u
    ensures Apply(c, s, op).1 != Address(Some(p.users[u]))
  {
    hide FirstFree, InRange, IsAnon, EffectiveName;
    var user := EffectiveName(op.sa.value);
    if user in s.leases {
      if s.leases[user].fixed {
        assert GrantedFixed(policies, user, s.leases[user].ip);
      }
    } else if Choose(c, s, user).Some? && !Choose(c, s, user).value.1 {
      ChoiceIsFree(c, s, user);
    }
  }
}
