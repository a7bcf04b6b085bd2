/** Exactly when addresses can clash in interleaved runs: under the condition under which they can in calls
    in a row, because one thread can make those calls. */
module InterleavedClashes {
  import opened Hosts
  import opened Naming
  import opened YamlParser
  import opened AllocatorSpec
  import opened AllocatorRuns
  import opened AddressClashes
  import opened Interleaving
  import opened InterleavedAddresses
  import opened ReturningAddress

  /** Any two leases in the table have different addresses. */
  predicate Apart(w: World) {
    forall k, l | k in w.heap && l in w.heap && k != l && InTable(w, k) && InTable(w, l) ::
      w.heap[k].ip != w.heap[l].ip
  }

  /** A lease in the table has an address that `p` fixes for another user. */
  predicate Occupied(w: World, p: Policy, user: string)
    requires Served(p, user)
  {
    exists l :: l in w.heap && InTable(w, l) && w.heap[l].user != user && w.heap[l].ip == p.users[user]
  }

  /** No lease in the table has an address that one of the policies fixes for another user. */
  ghost predicate Unoccupied(policies: set<Policy>, w: World) {
    forall p, user | p in policies && Served(p, user) :: !Occupied(w, p, user)
  }

  // ---- one thread, one acquire after the other ----

  /** The world with one more lease, under the next identity. */
  function Joined(names: Names, w: World, uid: u32, ip: Host, fixed: bool): World {
    w.(next := w.next + 1, heap := w.heap[w.next := HeapLease(names(uid), uid, ip, fixed)],
       byUid := w.byUid[uid := w.next], byUser := w.byUser[names(uid) := w.next],
       busy := if fixed then w.busy else w.busy + {ip})
  }

  lemma AsksPolicy(c: Config, names: Names, w: World, t: Tid, uid: u32)
    requires t in w.pcs && w.pcs[t].Idle? && w.lock.None?
    requires names(uid) !in w.byUser && Served(w.policy, names(uid))
    ensures Interleave(c, names, w, Ask(t, uid))
         == w.(pcs := w.pcs[t := AcqBind(uid, w.policy.users[names(uid)], true)], lock := Some(t))
  {
    hide Interleave, Advance, IsAnon;
    var call := CallAcquire(t, uid);
    var w1 := w.(pcs := w.pcs[t := AcqWait(uid)]);
    var w2 := w.(pcs := w.pcs[t := AcqLookup(uid)], lock := Some(t));
    var w3 := w2.(pcs := w.pcs[t := AcqPolicy(uid)]);
    var w4 := w2.(pcs := w.pcs[t := AcqBind(uid, w.policy.users[names(uid)], true)]);
    NoActions(c, names, w);
    ThenOne(c, names, w, [], w, call, w1);
    assert [] + [call] == [call];
    TakesLock(c, names, w1, t);
    ThenOne(c, names, w, [call], w1, Go(t, true), w2);
    GoesOn(c, names, w2, t);
    ThenOne(c, names, w, [call] + [Go(t, true)], w2, Go(t, true), w3);
    GoesOn(c, names, w3, t);
    ThenOne(c, names, w, [call] + [Go(t, true)] + [Go(t, true)], w3, Go(t, true), w4);
  }

  lemma FixedJoins(c: Config, names: Names, w: World, t: Tid, uid: u32)
    requires t in w.pcs && w.pcs[t].Idle? && w.lock.None?
    requires names(uid) !in w.byUser && Served(w.policy, names(uid))
    ensures Interleave(c, names, w, Ask(t, uid) + Keep(t))
         == Joined(names, w, uid, w.policy.users[names(uid)], true)
  {
    hide Interleave, Ask, Keep, IsAnon;
    AsksPolicy(c, names, w, t, uid);
    var v := w.(pcs := w.pcs[t := AcqBind(uid, w.policy.users[names(uid)], true)], lock := Some(t));
    Keeps(c, names, v, t);
    assert v.pcs[t := Idle] == w.pcs;
    Then(c, names, w, Ask(t, uid), v, Keep(t), Joined(names, w, uid, w.policy.users[names(uid)], true));
  }

  lemma PoolJoins(c: Config, names: Names, w: World, t: Tid, uid: u32, ip: Host)
    requires t in w.pcs && w.pcs[t].Idle? && w.lock.None?
    requires names(uid) !in w.byUser && !Served(w.policy, names(uid)) && PoolChoice(c, w.busy) == Some(ip)
    ensures Interleave(c, names, w, Ask(t, uid) + Get(t)) == Joined(names, w, uid, ip, false)
  {
    hide Interleave, Ask, Get, Served, PoolChoice;
    Asks(c, names, w, t, uid);
    var v := w.(pcs := w.pcs[t := AcqPool(uid, w.policy)], lock := Some(t));
    Gets(c, names, v, t, ip);
    assert v.pcs[t := Idle] == w.pcs;
    Then(c, names, w, Ask(t, uid), v, Get(t), Joined(names, w, uid, ip, false));
  }

  lemma Reloads(c: Config, names: Names, w: World, p: Policy)
    ensures Interleave(c, names, w, [ReloadTo(p)]) == w.(policy := p)
  {
    NoActions(c, names, w);
    ThenOne(c, names, w, [], w, ReloadTo(p), w.(policy := p));
    assert [] + [ReloadTo(p)] == [ReloadTo(p)];
  }

  // ---- the two conflicts ----

  /** The clash at the end of a run. */
  ghost predicate Clash(w: World, p: Policy, user: string) {
    !Apart(w) && Served(p, user) && Occupied(w, p, user)
  }

  lemma JoinedClashes(names: Names, w: World, uid: u32, ip: Host, fixed: bool, lid: Lid, p: Policy, user: string)
    requires Served(p, user) && ip == p.users[user] && names(uid) != user
    requires lid in w.heap && lid != w.next && w.heap[lid].ip == ip && w.heap[lid].user == user && InTable(w, lid)
    ensures Clash(Joined(names, w, uid, ip, fixed), p, user)
  {
    var v := Joined(names, w, uid, ip, fixed);
    assert InTable(v, lid) && InTable(v, w.next);
    assert v.heap[w.next].ip == v.heap[lid].ip;
  }

  lemma ReloadsTogether(policies: set<Policy>, a: seq<Action>, b: seq<Action>)
    requires ReloadsOnly(policies, a) && ReloadsOnly(policies, b)
    ensures ReloadsOnly(policies, a + b)
  {
  }

  lemma CallsReloadNothing(policies: set<Policy>, t: Tid, uid: u32)
    ensures ReloadsOnly(policies, Ask(t, uid) + Keep(t)) && ReloadsOnly(policies, Ask(t, uid) + Get(t))
  {
  }

  lemma SharedAddressMeets(c: Config, policies: set<Policy>, w: World, t: Tid, p: Policy, q: Policy, u: string,
                           v: string)
    returns (names: Names, actions: seq<Action>)
    requires Init(w) && t in w.pcs && p in policies && q in policies
    requires u != v && Served(p, u) && Served(q, v) && p.users[u] == q.users[v]
    ensures ReloadsOnly(policies, actions) && Clash(Interleave(c, names, w, actions), p, u)
  {
    names := uid => if uid == 0 then u else v;
    var first, second := Ask(t, 0) + Keep(t), Ask(t, 1) + Keep(t);
    actions := [ReloadTo(p)] + first + [ReloadTo(q)] + second;
    var w1 := w.(policy := p);
    var w2 := Joined(names, w1, 0, p.users[u], true);
    var w3 := w2.(policy := q);
    CallsReloadNothing(policies, t, 0);
    CallsReloadNothing(policies, t, 1);
    assert ReloadsOnly(policies, [ReloadTo(p)]) && ReloadsOnly(policies, [ReloadTo(q)]);
    hide Interleave, IsAnon, Clash, Ask, Keep, ReloadsOnly;
    ReloadsTogether(policies, [ReloadTo(p)], first);
    ReloadsTogether(policies, [ReloadTo(p)] + first, [ReloadTo(q)]);
    ReloadsTogether(policies, [ReloadTo(p)] + first + [ReloadTo(q)], second);
    Reloads(c, names, w, p);
    FixedJoins(c, names, w1, t, 0);
    Then(c, names, w, [ReloadTo(p)], w1, first, w2);
    Reloads(c, names, w2, q);
    Then(c, names, w, [ReloadTo(p)] + first, w2, [ReloadTo(q)], w3);
    FixedJoins(c, names, w3, t, 1);
    Then(c, names, w, [ReloadTo(p)] + first + [ReloadTo(q)], w3, second, Joined(names, w3, 1, q.users[v], true));
    JoinedClashes(names, w3, 1, q.users[v], true, w.next, p, u);
  }

  /** The first `n` anonymous SAs, one after the other, in one thread. */
  function Crowd(t: Tid, n: nat): seq<Action>
    requires n <= TWO32
  {
    if n == 0 then [] else Crowd(t, n - 1) + (Ask(t, n - 1) + Get(t))
  }

  /** They hold the first `n` addresses of the pool, and nothing else has changed. */
  ghost predicate Crowded(c: Config, names: Names, base: World, n: nat, w: World)
    requires c.pool.Some?
  {
    && w.pcs == base.pcs && w.lock.None? && w.policy == base.policy && w.next == base.next + n
    && w.busy == Block(c.pool.value.lo, n)
    && (forall u | u in base.byUser :: u in w.byUser && w.byUser[u] == base.byUser[u])
    && (forall l | l in base.heap && l < base.next :: l in w.heap && w.heap[l] == base.heap[l])
    && (forall i: u32 | n <= i && names(i) == EffectiveName(Sa(i, None)) :: names(i) !in w.byUser)
  }

  lemma OneMoreInCrowd(c: Config, user: string, count: nat, base: World, t: Tid, n: nat, w: World)
    requires c.pool.Some? && c.pool.value.lo + n <= c.pool.value.hi && n <= count < TWO32 - 1
    requires t in w.pcs && w.pcs[t].Idle? && Crowded(c, PoolNames(user, count), base, n, w)
    ensures var names, ip: Host := PoolNames(user, count), U32ToHost(c.pool.value.lo + n);
            && Interleave(c, names, w, Ask(t, n) + Get(t)) == Joined(names, w, n, ip, false)
            && Crowded(c, names, base, n + 1, Joined(names, w, n, ip, false))
  {
    var names, ip := PoolNames(user, count), U32ToHost(c.pool.value.lo + n);
    PlaceholderFits(Sa(n, None));
    NextIsFree(c, n);
    assert Block(c.pool.value.lo, n + 1) == Block(c.pool.value.lo, n) + {ip};
    assert names(n) == EffectiveName(Sa(n, None));
    hide Interleave, Ask, Get, FirstFree, Block, EffectiveName, IsAnon;
    PoolJoins(c, names, w, t, n, ip);
    forall i: u32 | n + 1 <= i ensures EffectiveName(Sa(i, None)) != EffectiveName(Sa(n, None)) {
      NamesCollide(Sa(i, None), Sa(n, None));
    }
  }

  lemma {:induction false} CrowdFills(c: Config, user: string, count: nat, base: World, t: Tid, n: nat)
    requires c.pool.Some? && c.pool.value.lo + n <= c.pool.value.hi + 1 && n <= count < TWO32 - 1
    requires t in base.pcs && base.pcs[t].Idle? && Crowded(c, PoolNames(user, count), base, 0, base)
    ensures Crowded(c, PoolNames(user, count), base, n, Interleave(c, PoolNames(user, count), base, Crowd(t, n)))
  {
    var names := PoolNames(user, count);
    if n == 0 {
      NoActions(c, names, base);
    } else {
      CrowdFills(c, user, count, base, t, n - 1);
      var w := Interleave(c, names, base, Crowd(t, n - 1));
      OneMoreInCrowd(c, user, count, base, t, n - 1, w);
      hide Crowded, Interleave, Ask, Get, Block;
      Then(c, names, base, Crowd(t, n - 1), w, Ask(t, n - 1) + Get(t), Interleave(c, names, w, Ask(t, n - 1) + Get(t)));
    }
  }

  lemma {:induction false} CrowdReloadsNothing(policies: set<Policy>, t: Tid, n: nat)
    requires n <= TWO32
    ensures ReloadsOnly(policies, Crowd(t, n))
  {
    if n > 0 {
      CrowdReloadsNothing(policies, t, n - 1);
      CallsReloadNothing(policies, t, n - 1);
      hide ReloadsOnly;
      ReloadsTogether(policies, Crowd(t, n - 1), Ask(t, n - 1) + Get(t));
    }
  }

  /** Load the policy, let the user in, then `n + 1` anonymous SAs. */
  function PoolActions(t: Tid, p: Policy, n: nat): seq<Action>
    requires n + 1 < TWO32
  {
    [ReloadTo(p)] + (Ask(t, n + 1) + Keep(t)) + Crowd(t, n) + (Ask(t, n) + Get(t))
  }

  lemma PoolActionsReload(policies: set<Policy>, t: Tid, p: Policy, n: nat)
    requires n + 1 < TWO32 && p in policies
    ensures ReloadsOnly(policies, PoolActions(t, p, n))
  {
    assert ReloadsOnly(policies, [ReloadTo(p)]);
    hide ReloadsOnly, Crowd;
    var enter, last := Ask(t, n + 1) + Keep(t), Ask(t, n) + Get(t);
    CallsReloadNothing(policies, t, n + 1);
    CallsReloadNothing(policies, t, n);
    CrowdReloadsNothing(policies, t, n);
    ReloadsTogether(policies, [ReloadTo(p)], enter);
    ReloadsTogether(policies, [ReloadTo(p)] + enter, Crowd(t, n));
    ReloadsTogether(policies, [ReloadTo(p)] + enter + Crowd(t, n), last);
  }

  lemma NobodyCrowded(c: Config, w: World, t: Tid, p: Policy, user: string, n: nat)
    requires c.pool.Some? && Init(w) && n + 1 < TWO32 && Served(p, user)
    ensures var names := PoolNames(user, n);
            var base := Joined(names, w.(policy := p), n + 1, p.users[user], true);
            Crowded(c, names, base, 0, base)
  {
    forall i: u32 ensures EffectiveName(Sa(i, None)) != user {
      PlaceholderFits(Sa(i, None));
    }
    hide EffectiveName, IsAnon;
    assert Block(c.pool.value.lo, 0) == {};
  }

  /** Up to the last anonymous SA. */
  lemma PoolFills(c: Config, w: World, t: Tid, p: Policy, user: string, n: nat)
    requires c.pool.Some? && Init(w) && t in w.pcs && n + 1 < TWO32 && Served(p, user)
    requires c.pool.value.lo + n <= c.pool.value.hi
    ensures var names := PoolNames(user, n);
            var base := Joined(names, w.(policy := p), n + 1, p.users[user], true);
            Crowded(c, names, base, n,
                    Interleave(c, names, w, [ReloadTo(p)] + (Ask(t, n + 1) + Keep(t)) + Crowd(t, n)))
  {
    var names := PoolNames(user, n);
    var start, enter := w.(policy := p), Ask(t, n + 1) + Keep(t);
    var base := Joined(names, start, n + 1, p.users[user], true);
    NobodyCrowded(c, w, t, p, user, n);
    hide Interleave, Ask, Keep, Crowd, IsAnon, Crowded, EffectiveName;
    Reloads(c, names, w, p);
    FixedJoins(c, names, start, t, n + 1);
    Then(c, names, w, [ReloadTo(p)], start, enter, base);
    CrowdFills(c, user, n, base, t, n);
    Then(c, names, w, [ReloadTo(p)] + enter, base, Crowd(t, n), Interleave(c, names, base, Crowd(t, n)));
  }

  lemma PoolAddressMeets(c: Config, policies: set<Policy>, w: World, t: Tid, p: Policy, user: string)
    returns (names: Names, actions: seq<Action>)
    requires Init(w) && t in w.pcs && p in policies && Served(p, user) && InPool(c, p.users[user])
    requires DynamicPools.Representable(c.pool.value.lo, c.pool.value.hi)
    ensures ReloadsOnly(policies, actions) && Clash(Interleave(c, names, w, actions), p, user)
  {
    var ip, lo: int := p.users[user], c.pool.value.lo;
    var n: int := HostToU32(ip) - lo;
    assert ip == U32ToHost(lo + n) && lo + n <= c.pool.value.hi && n + 1 < TWO32;
    names, actions := PoolNames(user, n), PoolActions(t, p, n);
    PoolActionsReload(policies, t, p, n);
    PoolFills(c, w, t, p, user, n);
    hide Interleave, Ask, Keep, Get, Crowd, IsAnon, EffectiveName, Block, ReloadsOnly, Clash, InRange;
    var base := Joined(names, w.(policy := p), n + 1, ip, true);
    var front, last := [ReloadTo(p)] + (Ask(t, n + 1) + Keep(t)) + Crowd(t, n), Ask(t, n) + Get(t);
    var full := Interleave(c, names, w, front);
    OneMoreInCrowd(c, user, n, base, t, n, full);
    Then(c, names, w, front, full, last, Joined(names, full, n, ip, false));
    LastAnonymousClashes(names, base, full, w.next, n, ip, p, user);
  }

  lemma LastAnonymousClashes(names: Names, base: World, w: World, lid: Lid, n: nat, ip: Host, p: Policy, user: string)
    requires n + 1 < TWO32 && Served(p, user) && ip == p.users[user] && names(n) == EffectiveName(Sa(n, None))
    requires lid in base.heap && lid < base.next && w.next == base.next + n && InTable(base, lid)
    requires base.heap[lid].ip == ip && base.heap[lid].user == user
    requires forall u | u in base.byUser :: u in w.byUser && w.byUser[u] == base.byUser[u]
    requires forall l | l in base.heap && l < base.next :: l in w.heap && w.heap[l] == base.heap[l]
    ensures Clash(Joined(names, w, n, ip, false), p, user)
  {
    PlaceholderFits(Sa(n, None));
    hide EffectiveName, Clash;
    JoinedClashes(names, w, n, ip, false, lid, p, user);
  }

  // ---- the exact condition ----

  lemma ConflictMeets(c: Config, policies: set<Policy>, w: World, t: Tid)
    returns (names: Names, actions: seq<Action>, p: Policy, user: string)
    requires Init(w) && t in w.pcs && !ConflictFree(c, policies)
    requires c.pool.Some? ==> DynamicPools.Representable(c.pool.value.lo, c.pool.value.hi)
    ensures p in policies && ReloadsOnly(policies, actions) && Clash(Interleave(c, names, w, actions), p, user)
  {
    if p0, u0 :| p0 in policies && Served(p0, u0) && InPool(c, p0.users[u0]) {
      p, user := p0, u0;
      names, actions := PoolAddressMeets(c, policies, w, t, p, user);
    } else {
      var p0, q, u0, v :| p0 in policies && q in policies && Served(p0, u0) && Served(q, v) && u0 != v
                          && p0.users[u0] == q.users[v];
      p, user := p0, u0;
      names, actions := SharedAddressMeets(c, policies, w, t, p, q, user, v);
    }
  }

  /** From an empty allocator with at least one thread: in every interleaving with reloads to these policies
      only, all leases in the table have different addresses at every point, if and only if the policies
      give no address to two users and none of the pool to anyone. */
  lemma InterleavedNeverClashExactly(c: Config, policies: set<Policy>, w: World, t: Tid)
    requires Init(w) && t in w.pcs && w.policy in policies
    requires c.pool.Some? ==> DynamicPools.Representable(c.pool.value.lo, c.pool.value.hi)
    ensures ConflictFree(c, policies) <==>
              forall names, actions | ReloadsOnly(policies, actions) :: Apart(Interleave(c, names, w, actions))
  {
    hide ConflictFree, Interleave, ReloadsOnly, Init;
    if ConflictFree(c, policies) {
      forall names, actions | ReloadsOnly(policies, actions) ensures Apart(Interleave(c, names, w, actions)) {
        InterleavedAddressesNeverClash(c, names, policies, w, actions);
      }
    } else {
      var names, actions, p, user := ConflictMeets(c, policies, w, t);
      assert !Apart(Interleave(c, names, w, actions));
    }
  }

  /** Under the same condition, and no other, no lease in the table ever has an address that one of the
      policies fixes for another user. */
  lemma InterleavedReservedExactly(c: Config, policies: set<Policy>, w: World, t: Tid)
    requires Init(w) && t in w.pcs && w.policy in policies
    requires c.pool.Some? ==> DynamicPools.Representable(c.pool.value.lo, c.pool.value.hi)
    ensures ConflictFree(c, policies) <==>
              forall names, actions | ReloadsOnly(policies, actions) ::
                  Unoccupied(policies, Interleave(c, names, w, actions))
  {
    hide ConflictFree, Interleave, ReloadsOnly, Init, Served, InTable, Apart;
    if ConflictFree(c, policies) {
      forall names, actions | ReloadsOnly(policies, actions)
        ensures Unoccupied(policies, Interleave(c, names, w, actions)) {
        forall p, user | p in policies && Served(p, user) ensures !Occupied(Interleave(c, names, w, actions), p, user) {
          InterleavedFixedAddressIsReserved(c, names, policies, w, actions, p, user);
        }
      }
    } else {
      var names, actions, p, user := ConflictMeets(c, policies, w, t);
      assert !Unoccupied(policies, Interleave(c, names, w, actions));
    }
  }
}
