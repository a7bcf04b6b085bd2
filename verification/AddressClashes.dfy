/** Exactly when all live leases have different addresses, and when a fixed address is kept for its user:
    from an empty allocator, the policies decide it, and every conflict among them can be reached. */
module AddressClashes {
  import opened Hosts
  import opened Naming
  import opened Leases
  import opened YamlParser
  import opened AllocatorSpec
  import opened AllocatorRuns
  import DynamicPools

  /** A pool the allocator can be built with, and policies that some file says. */
  ghost predicate Deployable(c: Config, policies: set<Policy>) {
    && (c.pool.Some? ==> DynamicPools.Representable(c.pool.value.lo, c.pool.value.hi))
    && forall p | p in policies :: exists file :: Load(c.resolve, file) == Some(p)
  }

  /** A run that keeps to the naming of uids and to the policies. */
  ghost predicate Permitted(c: Config, policies: set<Policy>, names: u32 -> string, ops: seq<Op>) {
    AllFit(names, ops) && OnlyLoads(c, policies, ops)
  }

  function Empty(p: Policy): State {
    State(map[], p)
  }

  /** No acquire of the run answers an address that a policy fixes for another user. */
  ghost predicate Reserves(c: Config, policies: set<Policy>, s: State, ops: seq<Op>) {
    && |Exec(c, s, ops).1| == |ops|
    && forall i, p, user |
         && 0 <= i < |ops| && ops[i].Acquire? && ops[i].sa.Some? && EffectiveName(ops[i].sa.value) != user
         && p in policies && Served(p, user) :: Exec(c, s, ops).1[i] != Address(Some(p.users[user]))
  }

  /** The run ends with an acquire that makes two leases share an address, which `p` fixes for `user`. */
  ghost predicate Clashes(c: Config, s: State, ops: seq<Op>, p: Policy, user: string) {
    && ops != [] && ops[|ops| - 1].Acquire? && ops[|ops| - 1].sa.Some?
    && EffectiveName(ops[|ops| - 1].sa.value) != user && Served(p, user)
    && !Distinct(Exec(c, s, ops).0)
    && Apply(c, Exec(c, s, ops[..|ops| - 1]).0, ops[|ops| - 1]).1 == Address(Some(p.users[user]))
  }

  function Connect(c: Config, sa: Sa): Op {
    Acquire(Some([Some(c.poolName)]), Some(sa), 0, true)
  }

  lemma LastStep(c: Config, s: State, ops: seq<Op>, op: Op)
    ensures Exec(c, s, ops + [op]).0 == Apply(c, Exec(c, s, ops).0, op).0
    ensures (ops + [op])[..|ops + [op]| - 1] == ops
  {
    var t := Exec(c, s, ops).0;
    ExecConcat(c, s, ops, [op]);
    assert Exec(c, t, [op]).0 == Exec(c, Apply(c, t, op).0, [op][1..]).0;
  }

  // ---- one address for two users ----

  lemma Arrival(c: Config, start: Policy, file: Option<seq<Event>>, p: Policy, user: string, uid: u32)
    requires Load(c.resolve, file) == Some(p) && Served(p, user)
    ensures Exec(c, Empty(start), [Reload(file)] + [Connect(c, Sa(uid, Some(user)))]).0
         == State(map[user := LeaseRec(uid, p.users[user], true, 0)], p)
  {
    assert [Reload(file)] == [] + [Reload(file)];
    LastStep(c, Empty(start), [], Reload(file));
    LastStep(c, Empty(start), [Reload(file)], Connect(c, Sa(uid, Some(user))));
  }

  /** Load the one policy, let `u` in, load the other. */
  function SharedRun(c: Config, pFile: Option<seq<Event>>, u: string, qFile: Option<seq<Event>>): seq<Op> {
    [Reload(pFile)] + [Connect(c, Sa(0, Some(u)))] + [Reload(qFile)]
  }

  lemma SharedRunIsPermitted(c: Config, policies: set<Policy>, p: Policy, q: Policy,
                             pFile: Option<seq<Event>>, u: string, qFile: Option<seq<Event>>, v: string)
    requires p in policies && q in policies && Load(c.resolve, pFile) == Some(p) && Load(c.resolve, qFile) == Some(q)
    ensures Permitted(c, policies, uid => if uid == 0 then u else v,
                      SharedRun(c, pFile, u, qFile) + [Connect(c, Sa(1, Some(v)))])
  {
    hide Load;
  }

  lemma SharedRunArrives(c: Config, start: Policy, p: Policy, q: Policy,
                         pFile: Option<seq<Event>>, u: string, qFile: Option<seq<Event>>)
    requires Load(c.resolve, pFile) == Some(p) && Load(c.resolve, qFile) == Some(q) && Served(p, u)
    ensures Exec(c, Empty(start), SharedRun(c, pFile, u, qFile)).0
         == State(map[u := LeaseRec(0, p.users[u], true, 0)], q)
  {
    hide Load, Exec, Served;
    Arrival(c, start, pFile, p, u, 0);
    LastStep(c, Empty(start), [Reload(pFile)] + [Connect(c, Sa(0, Some(u)))], Reload(qFile));
  }

  /** A policy gives `u` an address and another gives it to `v`: both come, one before the reload and one
      after it. */
  lemma SharedFixedAddressClashes(c: Config, policies: set<Policy>, start: Policy, p: Policy, q: Policy, u: string,
                                  v: string)
    returns (names: u32 -> string, ops: seq<Op>)
    requires Deployable(c, policies) && p in policies && q in policies
    requires u != v && Served(p, u) && Served(q, v) && p.users[u] == q.users[v]
    ensures Permitted(c, policies, names, ops) && Clashes(c, Empty(start), ops, p, u)
  {
    var pFile :| Load(c.resolve, pFile) == Some(p);
    var qFile :| Load(c.resolve, qFile) == Some(q);
    hide Load, Exec, SharedRun, Permitted;
    var front, last := SharedRun(c, pFile, u, qFile), Connect(c, Sa(1, Some(v)));
    names, ops := uid => if uid == 0 then u else v, front + [last];
    SharedRunIsPermitted(c, policies, p, q, pFile, u, qFile, v);
    SharedRunArrives(c, start, p, q, pFile, u, qFile);
    LastStep(c, Empty(start), front, last);
    var t := Apply(c, State(map[u := LeaseRec(0, p.users[u], true, 0)], q), last).0;
    assert t.leases[u].ip == t.leases[v].ip;
  }

  // ---- a fixed address in the pool ----

  /** The first `n` anonymous SAs, one after the other. */
  function Anonymous(c: Config, n: nat): (ops: seq<Op>)
    requires n <= TWO32
    ensures |ops| == n && forall i: u32 | i < n :: ops[i] == Connect(c, Sa(i, None))
  {
    if n == 0 then [] else Anonymous(c, n - 1) + [Connect(c, Sa(n - 1, None))]
  }

  /** The first `n` addresses of the pool. */
  function Block(lo: u32, n: nat): set<Host> {
    set v: u32 | lo <= v < lo + n :: U32ToHost(v)
  }

  /** The first `n` anonymous SAs hold the first `n` addresses; everybody else has what they had. */
  ghost predicate Filled(c: Config, base: State, n: nat, s: State)
    requires c.pool.Some?
  {
    && s.policy == base.policy
    && Taken(s.leases) == Block(c.pool.value.lo, n)
    && (forall u | u in base.leases :: u in s.leases && s.leases[u] == base.leases[u])
    && (forall i: u32 | n <= i :: EffectiveName(Sa(i, None)) !in s.leases)
  }

  lemma NextIsFree(c: Config, n: nat)
    requires c.pool.Some? && c.pool.value.lo + n <= c.pool.value.hi
    ensures var next: u32 := c.pool.value.lo + n;
            FirstFree(c.pool.value.lo, c.pool.value.hi, Block(c.pool.value.lo, n)) == Some(U32ToHost(next))
  {
    var lo, hi, taken := c.pool.value.lo, c.pool.value.hi, Block(c.pool.value.lo, n);
    var next: u32 := lo + n;
    FirstFreeIs(lo, hi, taken);
    forall v: u32 ensures U32ToHost(v) in taken <==> lo <= v < lo + n {
      if U32ToHost(v) in taken {
        var w: u32 :| lo <= w < lo + n && U32ToHost(w) == U32ToHost(v);
        U32ToHostInjective(v, w);
      }
    }
    assert U32ToHost(next) !in taken;
    var ff := FirstFree(lo, hi, taken).value;
    assert HostToU32(ff) == next;
  }

  lemma OneMore(c: Config, base: State, n: nat, s: State)
    requires c.pool.Some? && c.pool.value.lo + n <= c.pool.value.hi && Filled(c, base, n, s)
    ensures var sa: Sa := Sa(n, None);
            var l := LeaseRec(n, U32ToHost(c.pool.value.lo + n), false, 0);
            && Apply(c, s, Connect(c, sa)) == (s.(leases := s.leases[EffectiveName(sa) := l]), Address(Some(l.ip)))
            && Filled(c, base, n + 1, Apply(c, s, Connect(c, sa)).0)
  {
    var sa := Sa(n, None);
    var name, lo := EffectiveName(sa), c.pool.value.lo;
    var l := LeaseRec(n, U32ToHost(lo + n), false, 0);
    PlaceholderFits(sa);
    NextIsFree(c, n);
    TakenAfterInsert(s.leases, name, l);
    assert Block(lo, n + 1) == Block(lo, n) + {U32ToHost(lo + n)};
    hide FirstFree, Taken, Block, EffectiveName, IsAnon;
    assert Apply(c, s, Connect(c, sa)) == (s.(leases := s.leases[name := l]), Address(Some(l.ip)));
    forall i: u32 | n + 1 <= i ensures EffectiveName(Sa(i, None)) != name {
      NamesCollide(Sa(i, None), sa);
    }
  }

  lemma {:induction false} AnonymousFill(c: Config, base: State, n: nat)
    requires c.pool.Some? && c.pool.value.lo + n <= c.pool.value.hi + 1
    requires Filled(c, base, 0, base)
    ensures n <= TWO32 && Filled(c, base, n, Exec(c, base, Anonymous(c, n)).0)
  {
    if n > 0 {
      AnonymousFill(c, base, n - 1);
      var s := Exec(c, base, Anonymous(c, n - 1)).0;
      OneMore(c, base, n - 1, s);
      hide Apply, Filled;
      LastStep(c, base, Anonymous(c, n - 1), Connect(c, Sa(n - 1, None)));
    }
  }

  /** Load the file, let the user in, then `n` anonymous SAs. */
  function PoolRun(c: Config, file: Option<seq<Event>>, user: string, n: nat): seq<Op>
    requires n + 1 < TWO32
  {
    [Reload(file)] + [Connect(c, Sa(n + 1, Some(user)))] + Anonymous(c, n)
  }

  /** The user has the uid after those of the `n + 1` anonymous SAs. */
  function PoolNames(user: string, n: nat): u32 -> string {
    (uid: u32) => if uid == n + 1 then user else EffectiveName(Sa(uid, None))
  }

  lemma PoolRunIsPermitted(c: Config, policies: set<Policy>, file: Option<seq<Event>>, p: Policy, user: string, n: nat)
    requires n + 1 < TWO32 && p in policies && Load(c.resolve, file) == Some(p)
    ensures Permitted(c, policies, PoolNames(user, n), PoolRun(c, file, user, n) + [Connect(c, Sa(n, None))])
  {
    hide Load;
    var names, ops := PoolNames(user, n), PoolRun(c, file, user, n) + [Connect(c, Sa(n, None))];
    forall i | 0 <= i < |ops| ensures Fits(names, ops[i]) && (ops[i].Reload? ==> ops[i].file == file) {
      if i >= 2 {
        assert ops[i] == Connect(c, Sa(i - 2, None));
      }
    }
  }

  lemma PoolRunArrives(c: Config, start: Policy, file: Option<seq<Event>>, p: Policy, user: string, n: nat)
    requires c.pool.Some? && DynamicPools.Representable(c.pool.value.lo, c.pool.value.hi)
    requires c.pool.value.lo + n <= c.pool.value.hi
    requires Load(c.resolve, file) == Some(p) && Served(p, user)
    ensures n + 1 < TWO32
    ensures var base := State(map[user := LeaseRec(n + 1, p.users[user], true, 0)], p);
            Filled(c, base, n, Exec(c, Empty(start), PoolRun(c, file, user, n)).0)
  {
    var base := State(map[user := LeaseRec(n + 1, p.users[user], true, 0)], p);
    NobodyAnonymous(c, base, user);
    hide Filled, Load, Served, Apply;
    AnonymousFill(c, base, n);
    Arrival(c, start, file, p, user, n + 1);
    ExecConcat(c, Empty(start), [Reload(file)] + [Connect(c, Sa(n + 1, Some(user)))], Anonymous(c, n));
  }

  /** A policy fixes an address of the pool for `user`: load it, let the user in, then as many anonymous
      SAs as there are addresses up to that one. */
  lemma FixedAddressInPoolClashes(c: Config, policies: set<Policy>, start: Policy, p: Policy, user: string)
    returns (names: u32 -> string, ops: seq<Op>)
    requires Deployable(c, policies) && p in policies && Served(p, user) && InPool(c, p.users[user])
    ensures Permitted(c, policies, names, ops) && Clashes(c, Empty(start), ops, p, user)
  {
    var file :| Load(c.resolve, file) == Some(p);
    var ip := p.users[user];
    var lo: int := c.pool.value.lo;
    var n: int := HostToU32(ip) - lo;
    assert ip == U32ToHost(lo + n) && lo + n <= c.pool.value.hi;
    PoolRunArrives(c, start, file, p, user, n);
    PoolRunIsPermitted(c, policies, file, p, user, n);
    var front, sa := PoolRun(c, file, user, n), Sa(n, None);
    names, ops := PoolNames(user, n), front + [Connect(c, sa)];
    var s := Exec(c, Empty(start), front).0;
    LastStep(c, Empty(start), front, Connect(c, sa));
    LastClash(c, s, p, user, n);
  }

  lemma LastClash(c: Config, s: State, p: Policy, user: string, n: nat)
    requires c.pool.Some? && c.pool.value.lo + n <= c.pool.value.hi && n + 1 < TWO32 && Served(p, user)
    requires Filled(c, State(map[user := LeaseRec(n + 1, p.users[user], true, 0)], p), n, s)
    requires p.users[user] == U32ToHost(c.pool.value.lo + n)
    ensures var op := Connect(c, Sa(n, None));
            && EffectiveName(Sa(n, None)) != user && !Distinct(Apply(c, s, op).0)
            && Apply(c, s, op).1 == Address(Some(p.users[user]))
  {
    hide EffectiveName;
    PlaceholderFits(Sa(n, None));
    OneMore(c, State(map[user := LeaseRec(n + 1, p.users[user], true, 0)], p), n, s);
    hide Apply, IsAnon;
    var t := Apply(c, s, Connect(c, Sa(n, None))).0;
    assert t.leases[user].ip == t.leases[EffectiveName(Sa(n, None))].ip;
  }

  lemma NobodyAnonymous(c: Config, s: State, user: string)
    requires c.pool.Some? && s.leases.Keys == {user} && s.leases[user].fixed && !IsAnon(user)
    ensures Filled(c, s, 0, s)
  {
    forall i: u32 ensures EffectiveName(Sa(i, None)) != user {
      PlaceholderFits(Sa(i, None));
    }
    assert Taken(s.leases) == Block(c.pool.value.lo, 0) == {};
  }

  // ---- the exact condition ----

  lemma ConflictIsReached(c: Config, policies: set<Policy>, start: Policy)
    returns (names: u32 -> string, ops: seq<Op>, p: Policy, user: string)
    requires Deployable(c, policies) && !ConflictFree(c, policies)
    ensures p in policies && Permitted(c, policies, names, ops) && Clashes(c, Empty(start), ops, p, user)
  {
    if p0, u0 :| p0 in policies && Served(p0, u0) && InPool(c, p0.users[u0]) {
      p, user := p0, u0;
      names, ops := FixedAddressInPoolClashes(c, policies, start, p, user);
    } else {
      var p0, q, u0, v :| p0 in policies && q in policies && Served(p0, u0) && Served(q, v) && u0 != v
                          && p0.users[u0] == q.users[v];
      p, user := p0, u0;
      names, ops := SharedFixedAddressClashes(c, policies, start, p, q, user, v);
    }
  }

  /** From an empty allocator: all live leases have different addresses after every permitted run if and
      only if the policies give no address to two users and none of the pool to anyone. */
  lemma NeverClashExactly(c: Config, policies: set<Policy>, start: Policy)
    requires Deployable(c, policies) && start in policies
    ensures ConflictFree(c, policies) <==>
              forall names, ops | Permitted(c, policies, names, ops) :: Distinct(Exec(c, Empty(start), ops).0)
  {
    hide ConflictFree, Exec, Distinct, Wf, Granted;
    if ConflictFree(c, policies) {
      EmptyIsGranted(c, policies, start);
      forall names, ops | Permitted(c, policies, names, ops) ensures Distinct(Exec(c, Empty(start), ops).0) {
        AddressesNeverClash(c, policies, Empty(start), ops);
      }
    } else {
      var names, ops, p, user := ConflictIsReached(c, policies, start);
    }
  }

  /** Under the same condition, and no other, a fixed address is never answered to anyone but its user,
      connected or not. */
  lemma ReservedExactly(c: Config, policies: set<Policy>, start: Policy)
    requires Deployable(c, policies) && start in policies
    ensures ConflictFree(c, policies) <==>
              forall names, ops | Permitted(c, policies, names, ops) :: Reserves(c, policies, Empty(start), ops)
  {
    hide ConflictFree, Exec, Distinct, Wf, Granted, Apply;
    if ConflictFree(c, policies) {
      EmptyIsGranted(c, policies, start);
      forall names, ops | Permitted(c, policies, names, ops) ensures Reserves(c, policies, Empty(start), ops) {
        EveryAnswerReserved(c, policies, Empty(start), ops);
      }
    } else {
      var names, ops, p, user := ConflictIsReached(c, policies, start);
      OutAt(c, Empty(start), ops, |ops| - 1);
      assert !Reserves(c, policies, Empty(start), ops);
    }
  }

  lemma EmptyIsGranted(c: Config, policies: set<Policy>, start: Policy)
    requires start in policies
    ensures Wf(c, Empty(start)) && Granted(c, policies, Empty(start))
  {
  }

  lemma EveryAnswerReserved(c: Config, policies: set<Policy>, s: State, ops: seq<Op>)
    requires ConflictFree(c, policies) && Wf(c, s) && Granted(c, policies, s) && OnlyLoads(c, policies, ops)
    ensures Reserves(c, policies, s, ops)
  {
    hide ConflictFree, Exec, Wf, Granted, OnlyLoads, EffectiveName;
    ExecConcat(c, s, ops, []);
    forall i, p, user |
      && 0 <= i < |ops| && ops[i].Acquire? && ops[i].sa.Some? && EffectiveName(ops[i].sa.value) != user
      && p in policies && Served(p, user)
      ensures Exec(c, s, ops).1[i] != Address(Some(p.users[user])) {
      FixedAddressIsReserved(c, policies, s, ops, i, p, user);
    }
  }
}
