/** The one way in which interleaved calls differ from calls in a row: an address between the table and
    the pool.  A run of two threads that gets there, and what the acquire then answers. */
module ReturningAddress {
  import opened Hosts
  import opened AllocatorSpec
  import opened Interleaving
  import opened InterleavedRuns
  import opened Atomicity

  lemma {:induction false} InterleaveConcat(c: Config, names: Names, w: World, a: seq<Action>, b: seq<Action>)
    ensures Interleave(c, names, w, a + b) == Interleave(c, names, Interleave(c, names, w, a), b)
    decreases |a|
  {
    hide Act;
    if a == [] {
      assert a + b == b;
    } else {
      assert (a + b)[0] == a[0] && (a + b)[1..] == a[1..] + b;
      InterleaveConcat(c, names, Act(c, names, w, a[0]), a[1..], b);
    }
  }

  /** One run after the other. */
  lemma Then(c: Config, names: Names, w: World, a: seq<Action>, v: World, b: seq<Action>, u: World)
    requires Interleave(c, names, w, a) == v && Interleave(c, names, v, b) == u
    ensures Interleave(c, names, w, a + b) == u
  {
    InterleaveConcat(c, names, w, a, b);
  }

  lemma ThenOne(c: Config, names: Names, w: World, a: seq<Action>, v: World, step: Action, u: World)
    requires Interleave(c, names, w, a) == v && Act(c, names, v, step) == u
    ensures Interleave(c, names, w, a + [step]) == u
  {
    hide Act;
    InterleaveConcat(c, names, w, a, [step]);
    assert Interleave(c, names, v, [step]) == Interleave(c, names, u, [step][1..]);
  }

  // ---- the single steps, by where the thread is ----

  lemma TakesLock(c: Config, names: Names, w: World, t: Tid)
    requires t in w.pcs && Locks(w.pcs[t]) && w.lock.None?
    ensures Act(c, names, w, Go(t, true)) == Goto(w, t, Next(names, w, w.pcs[t], true)).(lock := Some(t))
  {
    hide Next;
  }

  lemma GoesOn(c: Config, names: Names, w: World, t: Tid)
    requires t in w.pcs && (w.pcs[t].AcqLookup? || w.pcs[t].AcqPolicy?)
    ensures Act(c, names, w, Go(t, true)) == Goto(w, t, Next(names, w, w.pcs[t], true))
  {
    hide Next;
  }

  lemma GivesUpLock(c: Config, names: Names, w: World, t: Tid)
    requires t in w.pcs && Unlocks(w.pcs[t]) && w.lock == Some(t)
    requires w.pcs[t].AcqClone? || w.pcs[t].AcqReuse? ==> w.pcs[t].lid in w.heap
    ensures Act(c, names, w, Go(t, true)) == Goto(w, t, Next(names, w, w.pcs[t], true)).(lock := None)
  {
    hide Next;
  }

  lemma GetsAddress(c: Config, names: Names, w: World, t: Tid)
    requires t in w.pcs && w.pcs[t].AcqPool?
    ensures Act(c, names, w, Go(t, true))
         == match PoolChoice(c, w.busy)
            case None => Goto(w, t, AcqNone)
            case Some(ip) => Goto(w, t, AcqBind(w.pcs[t].uid, ip, false)).(busy := w.busy + {ip})
  {
    hide PoolChoice;
  }

  lemma Binds(c: Config, names: Names, w: World, t: Tid)
    requires t in w.pcs && w.pcs[t].AcqBind? && names(w.pcs[t].uid) !in w.byUser
    ensures var pc := w.pcs[t];
            Act(c, names, w, Go(t, true))
              == Goto(w, t, AcqClone(pc.uid, w.next)).(next := w.next + 1,
                   heap := w.heap[w.next := HeapLease(names(pc.uid), pc.uid, pc.ip, pc.fixed)],
                   byUid := w.byUid[pc.uid := w.next], byUser := w.byUser[names(pc.uid) := w.next])
  {
  }

  lemma Unbinds(c: Config, names: Names, w: World, t: Tid)
    requires t in w.pcs && w.pcs[t].RelUnbind? && w.pcs[t].uid in w.byUid && w.byUid[w.pcs[t].uid] in w.heap
    ensures var l := w.byUid[w.pcs[t].uid];
            Act(c, names, w, Go(t, true))
              == Goto(w, t, RelUnlock(Some(l))).(byUid := w.byUid - {w.pcs[t].uid},
                                                 byUser := w.byUser - {w.heap[l].user})
  {
  }

  lemma Recycles(c: Config, names: Names, w: World, t: Tid)
    requires t in w.pcs && w.pcs[t].RelPool? && w.pcs[t].lid in w.heap && !w.heap[w.pcs[t].lid].fixed
    ensures Act(c, names, w, Go(t, true))
         == Goto(w, t, RelDestroy(w.pcs[t].lid)).(busy := w.busy - {w.heap[w.pcs[t].lid].ip})
  {
  }

  // ---- the parts of the run ----

  /** A user without a lease and without a fixed address, up to the pool. */
  function Ask(t: Tid, uid: u32): seq<Action> {
    [CallAcquire(t, uid)] + [Go(t, true)] + [Go(t, true)] + [Go(t, true)]
  }

  lemma Asks(c: Config, names: Names, w: World, t: Tid, uid: u32)
    requires t in w.pcs && w.pcs[t].Idle? && w.lock.None?
    requires names(uid) !in w.byUser && !Served(w.policy, names(uid))
    ensures Interleave(c, names, w, Ask(t, uid)) == w.(pcs := w.pcs[t := AcqPool(uid, w.policy)], lock := Some(t))
  {
    hide Interleave, Served, Advance;
    var call := CallAcquire(t, uid);
    var w1 := w.(pcs := w.pcs[t := AcqWait(uid)]);
    var w2 := w.(pcs := w.pcs[t := AcqLookup(uid)], lock := Some(t));
    var w3 := w2.(pcs := w.pcs[t := AcqPolicy(uid)]);
    var w4 := w2.(pcs := w.pcs[t := AcqPool(uid, w.policy)]);
    NoActions(c, names, w);
    ThenOne(c, names, w, [], w, call, w1);
    assert [] + [call] == [call];
    TakesLock(c, names, w1, t);
    ThenOne(c, names, w, [call], w1, Go(t, true), w2);
    GoesOn(c, names, w2, t);
    ThenOne(c, names, w, [call] + [Go(t, true)], w2, Go(t, true), w3);
    GoesOn(c, names, w3, t);
    ThenOne(c, names, w, [call] + [Go(t, true)] + [Go(t, true)], w3, Go(t, true), w4);
  }

  lemma NoActions(c: Config, names: Names, w: World)
    ensures Interleave(c, names, w, []) == w
  {
  }

  /** With an address in hand, to the end of the acquire. */
  function Keep(t: Tid): seq<Action> {
    [Go(t, true)] + [Go(t, true)]
  }

  lemma Keeps(c: Config, names: Names, w: World, t: Tid)
    requires t in w.pcs && w.pcs[t].AcqBind? && w.lock == Some(t) && names(w.pcs[t].uid) !in w.byUser
    ensures var pc := w.pcs[t];
            Interleave(c, names, w, Keep(t))
              == w.(pcs := w.pcs[t := Idle], lock := None, next := w.next + 1,
                    heap := w.heap[w.next := HeapLease(names(pc.uid), pc.uid, pc.ip, pc.fixed)],
                    byUid := w.byUid[pc.uid := w.next], byUser := w.byUser[names(pc.uid) := w.next])
  {
    hide Interleave, Act;
    var pc := w.pcs[t];
    var bound := w.(pcs := w.pcs[t := AcqClone(pc.uid, w.next)], next := w.next + 1,
                    heap := w.heap[w.next := HeapLease(names(pc.uid), pc.uid, pc.ip, pc.fixed)],
                    byUid := w.byUid[pc.uid := w.next], byUser := w.byUser[names(pc.uid) := w.next]);
    NoActions(c, names, w);
    Binds(c, names, w, t);
    ThenOne(c, names, w, [], w, Go(t, true), bound);
    assert [] + [Go(t, true)] == [Go(t, true)];
    GivesUpLock(c, names, bound, t);
    ThenOne(c, names, w, [Go(t, true)], bound, Go(t, true), bound.(pcs := w.pcs[t := Idle], lock := None));
  }

  /** From the pool to the end of the acquire. */
  function Get(t: Tid): seq<Action> {
    [Go(t, true)] + Keep(t)
  }

  lemma Gets(c: Config, names: Names, w: World, t: Tid, ip: Host)
    requires t in w.pcs && w.pcs[t].AcqPool? && w.lock == Some(t)
    requires PoolChoice(c, w.busy) == Some(ip) && names(w.pcs[t].uid) !in w.byUser
    ensures var uid := w.pcs[t].uid;
            Interleave(c, names, w, Get(t))
              == w.(pcs := w.pcs[t := Idle], lock := None, busy := w.busy + {ip}, next := w.next + 1,
                    heap := w.heap[w.next := HeapLease(names(uid), uid, ip, false)],
                    byUid := w.byUid[uid := w.next], byUser := w.byUser[names(uid) := w.next])
  {
    hide Interleave, PoolChoice, Act, Keep;
    var got := w.(pcs := w.pcs[t := AcqBind(w.pcs[t].uid, ip, false)], busy := w.busy + {ip});
    NoActions(c, names, w);
    GetsAddress(c, names, w, t);
    ThenOne(c, names, w, [], w, Go(t, true), got);
    assert [] + [Go(t, true)] == [Go(t, true)];
    Keeps(c, names, got, t);
    assert got.pcs[t := Idle] == w.pcs[t := Idle];
    Then(c, names, w, [Go(t, true)], got, Keep(t), Interleave(c, names, got, Keep(t)));
  }

  /** A release up to the point where the lease is out of the table and `lock` is free again. */
  function Let(t: Tid, uid: u32): seq<Action> {
    [CallRelease(t, uid)] + [Go(t, true)] + [Go(t, true)] + [Go(t, true)]
  }

  lemma Lets(c: Config, names: Names, w: World, t: Tid, uid: u32, lid: Lid)
    requires t in w.pcs && w.pcs[t].Idle? && w.lock.None?
    requires w.byUid == map[uid := lid] && lid in w.heap && w.byUser == map[w.heap[lid].user := lid]
    ensures Interleave(c, names, w, Let(t, uid)) == w.(pcs := w.pcs[t := RelPool(lid)], byUid := map[], byUser := map[])
  {
    hide Interleave, Advance;
    assert w.byUid - {uid} == map[] && w.byUser - {w.heap[lid].user} == map[];
    var call := CallRelease(t, uid);
    var w1 := w.(pcs := w.pcs[t := RelWait(uid)]);
    var w2 := w.(pcs := w.pcs[t := RelUnbind(uid)], lock := Some(t));
    var w3 := w2.(pcs := w.pcs[t := RelUnlock(Some(lid))], byUid := map[], byUser := map[]);
    var w4 := w3.(pcs := w.pcs[t := RelPool(lid)], lock := None);
    NoActions(c, names, w);
    ThenOne(c, names, w, [], w, call, w1);
    assert [] + [call] == [call];
    TakesLock(c, names, w1, t);
    ThenOne(c, names, w, [call], w1, Go(t, true), w2);
    Unbinds(c, names, w2, t);
    ThenOne(c, names, w, [call] + [Go(t, true)], w2, Go(t, true), w3);
    GivesUpLock(c, names, w3, t);
    ThenOne(c, names, w, [call] + [Go(t, true)] + [Go(t, true)], w3, Go(t, true), w4);
  }

  /** Thread 0 acquires under `a` and releases again, up to the pool; thread 1 acquires under `b`, up to
      the pool. */
  function MeetAtPool(a: u32, b: u32): seq<Action> {
    Ask(0, a) + Get(0) + Let(0, a) + Ask(1, b)
  }

  /** Where that run leads: no lease in the table, the bit of the only address set, the pool asked. */
  function AtPool(names: Names, w: World, a: u32, b: u32, ip: Host): World {
    w.(pcs := w.pcs[0 := RelPool(w.next)][1 := AcqPool(b, w.policy)], lock := Some(1),
       heap := map[w.next := HeapLease(names(a), a, ip, false)], next := w.next + 1, busy := {ip})
  }

  lemma OnlyChoice(c: Config, busy: set<Host>)
    requires c.pool.Some? && c.pool.value.lo == c.pool.value.hi
    ensures var ip := U32ToHost(c.pool.value.lo);
            PoolChoice(c, busy) == if ip in busy then None else Some(ip)
  {
    var lo: int := c.pool.value.lo;
    assert FirstFree(lo + 1, lo, busy).None?;
  }

  lemma ThreadsMeet(c: Config, names: Names, w: World, a: u32, b: u32)
    requires Init(w) && 0 in w.pcs && 1 in w.pcs
    requires c.pool.Some? && c.pool.value.lo == c.pool.value.hi
    requires !Served(w.policy, names(a)) && !Served(w.policy, names(b))
    ensures Interleave(c, names, w, MeetAtPool(a, b)) == AtPool(names, w, a, b, U32ToHost(c.pool.value.lo))
  {
    hide Interleave, Ask, Get, Let, Served, PoolChoice, U32ToHost;
    var ip := U32ToHost(c.pool.value.lo);
    var asked := w.(pcs := w.pcs[0 := AcqPool(a, w.policy)], lock := Some(0));
    var held := w.(heap := map[w.next := HeapLease(names(a), a, ip, false)], next := w.next + 1, busy := {ip},
                   byUid := map[a := w.next], byUser := map[names(a) := w.next]);
    var left := held.(pcs := w.pcs[0 := RelPool(w.next)], byUid := map[], byUser := map[]);
    OnlyChoice(c, {});
    assert w.pcs[0 := Idle] == w.pcs;
    Asks(c, names, w, 0, a);
    Gets(c, names, asked, 0, ip);
    Then(c, names, w, Ask(0, a), asked, Get(0), held);
    Lets(c, names, held, 0, a, w.next);
    Then(c, names, w, Ask(0, a) + Get(0), held, Let(0, a), left);
    Asks(c, names, left, 1, b);
    Then(c, names, w, Ask(0, a) + Get(0) + Let(0, a), left, Ask(1, b), AtPool(names, w, a, b, ip));
  }

  /** The gap is real, and a run reaches it: no lease is left in the table, no acquire has the address,
      and yet the pool has nothing for the thread that asks.  One step of the other thread, and it has. */
  lemma LastAddressOnItsWayBack(c: Config, names: Names, w: World, a: u32, b: u32)
    requires Init(w) && 0 in w.pcs && 1 in w.pcs
    requires c.pool.Some? && c.pool.value.lo == c.pool.value.hi
    requires !Served(w.policy, names(a)) && !Served(w.policy, names(b))
    ensures var ip := U32ToHost(c.pool.value.lo);
            var v := AtPool(names, w, a, b, ip);
            var back := v.(pcs := v.pcs[0 := RelDestroy(w.next)], busy := {});
            && Interleave(c, names, w, MeetAtPool(a, b)) == v
            && Live(v) == {} && InFlight(v) == {} && Meaning(names, v) == Simple(map[], {ip})
            && Act(c, names, v, Go(1, true)) == v.(pcs := v.pcs[1 := AcqNone])
            && Act(c, names, v, Go(0, true)) == back
            && Act(c, names, back, Go(1, true)) == back.(pcs := back.pcs[1 := AcqBind(b, ip, false)], busy := {ip})
  {
    var ip := U32ToHost(c.pool.value.lo);
    var v := AtPool(names, w, a, b, ip);
    var back := v.(pcs := v.pcs[0 := RelDestroy(w.next)], busy := {});
    ThreadsMeet(c, names, w, a, b);
    AtPoolMeans(names, w, a, b, ip);
    OnlyChoice(c, {ip});
    OnlyChoice(c, {});
    hide Interleave, MeetAtPool, PoolChoice, Meaning, Live, InFlight, Act, U32ToHost, Served;
    GetsAddress(c, names, v, 1);
    Recycles(c, names, v, 0);
    GetsAddress(c, names, back, 1);
  }

  lemma AtPoolMeans(names: Names, w: World, a: u32, b: u32, ip: Host)
    requires Init(w)
    ensures var v := AtPool(names, w, a, b, ip);
            Live(v) == {} && InFlight(v) == {} && Meaning(names, v) == Simple(map[], {ip})
  {
    hide Pending, Live, InFlight;
    AtPoolPending(names, w, a, b, ip);
    assert Leased(names, AtPool(names, w, a, b, ip)) == map[];
  }

  lemma AtPoolPending(names: Names, w: World, a: u32, b: u32, ip: Host)
    requires Init(w)
    ensures var v := AtPool(names, w, a, b, ip);
            Live(v) == {} && InFlight(v) == {} && Pending(v) == {ip}
  {
    var v := AtPool(names, w, a, b, ip);
    assert Pends(v, 0) && PendingOf(v, 0) == ip;
    assert forall t | t != 0 :: !Pends(v, t);
    hide Pends, PendingOf;
    assert ip in Pending(v);
  }
}
