/** What the invariant of the interleaved allocator means, over every run from an empty allocator. */
module InterleavedRuns {
  import opened Hosts
  import opened AllocatorSpec
  import opened Interleaving

  // ---- the bits ----

  /** The addresses of the dynamic leases in the table. */
  function Live(w: World): set<Host> {
    set l | l in w.heap && InTable(w, l) && !w.heap[l].fixed :: w.heap[l].ip
  }

  /** The address an acquire has from the pool but not yet in the table. */
  function InFlight(w: World): set<Host> {
    set t | t in w.pcs && w.pcs[t].AcqBind? && !w.pcs[t].fixed :: w.pcs[t].ip
  }

  /** A release took this dynamic lease out of the table and has not yet given back its address. */
  predicate Pends(w: World, t: Tid) {
    && t in w.pcs && !w.pcs[t].RelDestroy? && Carries(w.pcs[t]).Some?
    && Carries(w.pcs[t]).value in w.heap && !w.heap[Carries(w.pcs[t]).value].fixed
  }

  function PendingOf(w: World, t: Tid): Host
    requires Pends(w, t)
  {
    w.heap[Carries(w.pcs[t]).value].ip
  }

  function Pending(w: World): set<Host> {
    set t | t in w.pcs && Pends(w, t) :: PendingOf(w, t)
  }

  lemma HoldersAre(c: Config, w: World)
    requires BitsOk(c, w)
    ensures w.busy == Live(w) + InFlight(w) + Pending(w)
    ensures Live(w) !! InFlight(w) !! Pending(w)
  {
    forall ip ensures ip in w.busy <==> ip in Live(w) + InFlight(w) + Pending(w) {
      if ip in w.busy {
        var h :| Holds(w, h) == Some(ip);
        match h
        case OfLease(l) => assert ip in Live(w);
        case OfAcquire(t) => assert ip in InFlight(w);
        case OfRelease(t) => assert Pends(w, t);
      }
      LiveIsHeld(w, ip);
      InFlightIsHeld(w, ip);
      PendingIsHeld(w, ip);
    }
    forall ip | ip in Live(w) ensures ip !in InFlight(w) + Pending(w) {
      LiveIsHeld(w, ip);
      InFlightIsHeld(w, ip);
      PendingIsHeld(w, ip);
    }
    forall ip | ip in InFlight(w) ensures ip !in Pending(w) {
      InFlightIsHeld(w, ip);
      PendingIsHeld(w, ip);
    }
  }

  lemma LiveIsHeld(w: World, ip: Host)
    ensures ip in Live(w) ==> exists l :: Holds(w, OfLease(l)) == Some(ip)
  {
    if ip in Live(w) {
      var l :| l in w.heap && InTable(w, l) && !w.heap[l].fixed && w.heap[l].ip == ip;
      assert Holds(w, OfLease(l)) == Some(ip);
    }
  }

  lemma InFlightIsHeld(w: World, ip: Host)
    ensures ip in InFlight(w) ==> exists t :: Holds(w, OfAcquire(t)) == Some(ip)
  {
    if ip in InFlight(w) {
      var t :| t in w.pcs && w.pcs[t].AcqBind? && !w.pcs[t].fixed && w.pcs[t].ip == ip;
      assert Holds(w, OfAcquire(t)) == Some(ip);
    }
  }

  lemma PendingIsHeld(w: World, ip: Host)
    ensures ip in Pending(w) ==> exists t :: Holds(w, OfRelease(t)) == Some(ip)
  {
    if ip in Pending(w) {
      var t :| t in w.pcs && Pends(w, t) && PendingOf(w, t) == ip;
      assert Holds(w, OfRelease(t)) == Some(ip);
    }
  }

  /** At every point of every interleaved run the set bits are exactly the disjoint union of the live
      dynamic leases, the acquire between pool and table, and the releases between table and pool.
      No two leases, and no two pending releases, carry the same address. */
  lemma BitsAreHeldOnce(c: Config, names: Names, w: World, actions: seq<Action>)
    requires Init(w)
    ensures var v := Interleave(c, names, w, actions);
            && v.busy == Live(v) + InFlight(v) + Pending(v)
            && Live(v) !! InFlight(v) !! Pending(v)
            && (forall ip | ip in v.busy :: InPool(c, ip))
            && (forall k, l | k in v.heap && l in v.heap && k != l && InTable(v, k) && InTable(v, l)
                  && !v.heap[k].fixed && !v.heap[l].fixed :: v.heap[k].ip != v.heap[l].ip)
            && (forall s, t | s != t && Pends(v, s) && Pends(v, t) :: PendingOf(v, s) != PendingOf(v, t))
  {
    InitInv(c, names, w);
    InterleavingKeepsInv(c, names, w, actions);
    var v := Interleave(c, names, w, actions);
    HoldersAre(c, v);
    forall ip | ip in v.busy ensures InPool(c, ip) {
      var h :| Holds(v, h) == Some(ip);
    }
    forall k, l | k in v.heap && l in v.heap && k != l && InTable(v, k) && InTable(v, l)
                  && !v.heap[k].fixed && !v.heap[l].fixed ensures v.heap[k].ip != v.heap[l].ip {
      assert Holds(v, OfLease(k)) != Holds(v, OfLease(l));
    }
    forall s, t | s != t && Pends(v, s) && Pends(v, t) ensures PendingOf(v, s) != PendingOf(v, t) {
      assert Holds(v, OfRelease(s)) != Holds(v, OfRelease(t));
    }
  }

  /** Nothing leaks: when no thread is inside, the set bits are the addresses of the leases in the table,
      and every lease that exists is in the table. */
  lemma NothingLeaks(c: Config, names: Names, w: World, actions: seq<Action>)
    requires Init(w)
    requires forall t | t in Interleave(c, names, w, actions).pcs :: Interleave(c, names, w, actions).pcs[t].Idle?
    ensures var v := Interleave(c, names, w, actions);
            && v.busy == Live(v) && (forall l | l in v.heap :: InTable(v, l)) && v.lock.None?
  {
    BitsAreHeldOnce(c, names, w, actions);
    var v := Interleave(c, names, w, actions);
    InitInv(c, names, w);
    InterleavingKeepsInv(c, names, w, actions);
    assert InFlight(v) == {} && Pending(v) == {};
  }

  // ---- ownership and the table ----

  /** No run touches or destroys a lease after its destruction or unlocks a lock it does not hold.
      Every lease is in the table under its own name and uid or in the hands of exactly one releasing
      thread; a lease an acquire has in hand exists and is in the table. */
  lemma LeasesHaveOneOwner(c: Config, names: Names, w: World, actions: seq<Action>)
    requires Init(w)
    ensures var v := Interleave(c, names, w, actions);
            && !v.fault
            && (forall l | l in v.heap :: InTable(v, l) != Carried(v, l))
            && (forall s, t | s in v.pcs && t in v.pcs && s != t && Carries(v.pcs[s]).Some? ::
                  Carries(v.pcs[s]) != Carries(v.pcs[t]))
            && (forall t | t in v.pcs && (v.pcs[t].AcqMigrate? || v.pcs[t].AcqReuse? || v.pcs[t].AcqClone?) ::
                  v.pcs[t].lid in v.heap && InTable(v, v.pcs[t].lid))
  {
    InitInv(c, names, w);
    InterleavingKeepsInv(c, names, w, actions);
    var v := Interleave(c, names, w, actions);
    forall t | t in v.pcs && (v.pcs[t].AcqMigrate? || v.pcs[t].AcqReuse? || v.pcs[t].AcqClone?)
      ensures v.pcs[t].lid in v.heap && InTable(v, v.pcs[t].lid) {
      assert AcquireOk(names, v, v.pcs[t]);
    }
  }

  /** `by_uid` and `by_user` hold the same leases, each under its own uid and name, in every run. */
  lemma TablesAgree(c: Config, names: Names, w: World, actions: seq<Action>)
    requires Init(w)
    ensures var v := Interleave(c, names, w, actions);
            && v.byUid.Values == v.byUser.Values
            && (forall k | k in v.byUid :: v.byUid[k] in v.heap && v.heap[v.byUid[k]].uid == k
                                           && v.heap[v.byUid[k]].user == names(k))
            && (forall u | u in v.byUser :: v.byUser[u] in v.heap && v.heap[v.byUser[u]].user == u)
  {
    InitInv(c, names, w);
    InterleavingKeepsInv(c, names, w, actions);
    var v := Interleave(c, names, w, actions);
    hide Inv, BitsOk, OwnersOk, LockOk;
    assert TablesOk(names, v) by { SplitInv(c, names, v); }
    forall l ensures l in v.byUid.Values <==> l in v.byUser.Values {
      if l in v.byUid.Values {
        var k :| k in v.byUid && v.byUid[k] == l;
        assert v.byUser[v.heap[l].user] == l;
      }
      if l in v.byUser.Values {
        var u :| u in v.byUser && v.byUser[u] == l;
        assert v.byUid[v.heap[l].uid] == l;
      }
    }
  }

  lemma SplitInv(c: Config, names: Names, w: World)
    requires Inv(c, names, w)
    ensures TablesOk(names, w) && LockOk(w) && OwnersOk(w) && BitsOk(c, w) && AcquiresOk(names, w)
  {
  }

  /** When a thread is about to bind, neither the name nor the uid is in the table: the overwrite branch
      of `bind_lease` is never taken, and no put displaces another lease. */
  lemma BindNeverOverwrites(c: Config, names: Names, w: World, actions: seq<Action>, t: Tid)
    requires Init(w)
    requires t in Interleave(c, names, w, actions).pcs && Interleave(c, names, w, actions).pcs[t].AcqBind?
    ensures var v := Interleave(c, names, w, actions);
            var uid := v.pcs[t].uid;
            names(uid) !in v.byUser && uid !in v.byUid && DoEvict(v, names(uid)) == v
  {
    InitInv(c, names, w);
    InterleavingKeepsInv(c, names, w, actions);
    var v := Interleave(c, names, w, actions);
    assert AcquireOk(names, v, v.pcs[t]);
    BindIsFresh(names, v, t);
  }

  /** When a thread is about to migrate a lease to a uid, that uid is free or already the lease's own. */
  lemma MigrateDisplacesNobody(c: Config, names: Names, w: World, actions: seq<Action>, t: Tid)
    requires Init(w)
    requires t in Interleave(c, names, w, actions).pcs && Interleave(c, names, w, actions).pcs[t].AcqMigrate?
    ensures var v := Interleave(c, names, w, actions);
            var uid := v.pcs[t].uid;
            && names(uid) in v.byUser && v.byUser[names(uid)] == v.pcs[t].lid
            && (uid in v.byUid ==> v.byUid[uid] == v.pcs[t].lid)
  {
    InitInv(c, names, w);
    InterleavingKeepsInv(c, names, w, actions);
    var v := Interleave(c, names, w, actions);
    assert AcquireOk(names, v, v.pcs[t]);
  }

  // ---- when the pool has nothing ----

  lemma PoolFailsWhen(c: Config, names: Names, w: World, t: Tid)
    requires BitsOk(c, w) && InFlight(w) == {} && t in w.pcs && w.pcs[t].AcqPool?
    ensures Advance(c, names, w, t, true).pcs[t] == AcqNone <==>
              c.pool.None? || forall i: u32 | c.pool.value.lo <= i <= c.pool.value.hi ::
                  U32ToHost(i) in Live(w) + Pending(w)
  {
    HoldersAre(c, w);
    hide BitsOk, Live, Pending, U32ToHost;
    if c.pool.Some? && c.pool.value.lo <= c.pool.value.hi {
      FirstFreeIs(c.pool.value.lo, c.pool.value.hi, w.busy);
    }
  }

  /** The pool turns an acquire away exactly when each of its addresses belongs to a live dynamic lease
      or to a release that has not given it back yet. */
  lemma PoolFailsExactly(c: Config, names: Names, w: World, actions: seq<Action>, t: Tid)
    requires Init(w)
    requires t in Interleave(c, names, w, actions).pcs && Interleave(c, names, w, actions).pcs[t].AcqPool?
    ensures var v := Interleave(c, names, w, actions);
            Advance(c, names, v, t, true).pcs[t] == AcqNone <==>
              c.pool.None? || forall i: u32 | c.pool.value.lo <= i <= c.pool.value.hi ::
                  U32ToHost(i) in Live(v) + Pending(v)
  {
    InitInv(c, names, w);
    InterleavingKeepsInv(c, names, w, actions);
    var v := Interleave(c, names, w, actions);
    hide BitsOk, Live, Pending, Interleave, Advance;
    assert Holding(v.pcs[t]) && InFlight(v) == {};
    PoolFailsWhen(c, names, v, t);
  }
}
