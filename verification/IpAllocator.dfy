/** How the taken bits of the pool and the leases agree, as a relation between values. */
module PoolCoupling {
  import opened Hosts
  import opened Leases
  import opened AllocatorSpec

  /** A bit is set exactly when a dynamic lease holds its address. */
  ghost predicate Agrees(c: Config, busy: set<int>, leases: map<string, LeaseRec>) {
    c.pool.Some? ==>
      forall v: u32 | c.pool.value.lo <= v <= c.pool.value.hi :: v in busy <==> U32ToHost(v) in Taken(leases)
  }

  /** The pool and the leases agree, and the leases are well formed. */
  ghost predicate Sound(c: Config, busy: set<int>, s: State) {
    Wf(c, s) && Agrees(c, busy, s.leases)
  }

  lemma SoundAfterRemoval(c: Config, s: State, user: string, busy: set<int>)
    requires Sound(c, busy, s) && user in s.leases
    ensures var l := s.leases[user];
            && Sound(c, if l.fixed then busy else busy - {HostToU32(l.ip)}, s.(leases := s.leases - {user}))
            && (!l.fixed ==> c.pool.Some? && l.ip.family == Inet)
  {
    TakenAfterRemoval(c, s, user);
    var l := s.leases[user];
    if !l.fixed {
      var a := HostToU32(l.ip);
      forall v: u32 ensures U32ToHost(v) == l.ip <==> v == a {
        U32ToHostInjective(v, a);
      }
    }
  }

  /** The users who hold an address of the pool. */
  ghost function DynamicUsers(leases: map<string, LeaseRec>): set<string> {
    set u | u in leases && !leases[u].fixed
  }

  lemma BusyHoldsLease(c: Config, s: State, busy: set<int>, user: string)
    requires Sound(c, busy, s) && c.pool.Some? && user in DynamicUsers(s.leases)
    ensures HostToU32(s.leases[user].ip) in busy
  {
    assert s.leases[user].ip in Taken(s.leases);
  }

  lemma Pick<T>(s: set<T>) returns (x: T)
    requires s != {}
    ensures x in s
  {
    x :| x in s;
  }

  lemma BusyMeansLease(c: Config, s: State, busy: set<int>)
    requires Sound(c, busy, s) && c.pool.Some?
    requires forall v: int | v in busy :: c.pool.value.lo <= v <= c.pool.value.hi
    ensures busy != {} ==> DynamicUsers(s.leases) != {}
  {
    if busy != {} {
      var v := Pick(busy);
      assert U32ToHost(v) in Taken(s.leases);
      var u :| u in s.leases && !s.leases[u].fixed && s.leases[u].ip == U32ToHost(v);
      assert u in DynamicUsers(s.leases);
    }
  }

  /** As many bits are set as there are dynamic leases. */
  lemma {:induction false} BusyCountsLeases(c: Config, s: State, busy: set<int>)
    requires Sound(c, busy, s) && c.pool.Some?
    requires forall v: int | v in busy :: c.pool.value.lo <= v <= c.pool.value.hi
    ensures |busy| == |DynamicUsers(s.leases)|
    decreases |s.leases|
  {
    hide Sound, HostToU32;
    var users := DynamicUsers(s.leases);
    if users == {} {
      BusyMeansLease(c, s, busy);
    } else {
      var u :| u in users;
      var rest := s.leases - {u};
      SoundAfterRemoval(c, s, u, busy);
      BusyHoldsLease(c, s, busy, u);
      assert DynamicUsers(rest) == users - {u};
      BusyCountsLeases(c, s.(leases := rest), busy - {HostToU32(s.leases[u].ip)});
    }
  }

  lemma AgreesAfterInsert(c: Config, leases: map<string, LeaseRec>, user: string, l: LeaseRec, busy: set<int>)
    requires Agrees(c, busy, leases) && user !in leases && (!l.fixed ==> InPool(c, l.ip))
    ensures Agrees(c, if l.fixed then busy else busy + {HostToU32(l.ip)}, leases[user := l])
  {
    TakenAfterInsert(leases, user, l);
    if !l.fixed {
      var a := HostToU32(l.ip);
      forall v: u32 ensures U32ToHost(v) == l.ip <==> v == a {
        U32ToHostInjective(v, a);
      }
    }
  }

  lemma SoundAfterInsert(c: Config, s: State, user: string, uid: u32, now: int, busy: set<int>)
    requires Sound(c, busy, s) && user !in s.leases && Choose(c, s, user).Some?
    ensures var (ip, fixed) := Choose(c, s, user).value;
            Sound(c, if fixed then busy else busy + {HostToU32(ip)},
                  s.(leases := s.leases[user := LeaseRec(uid, ip, fixed, now)]))
  {
    var (ip, fixed) := Choose(c, s, user).value;
    if !fixed {
      ChoiceIsFree(c, s, user);
    }
    AgreesAfterInsert(c, s.leases, user, LeaseRec(uid, ip, fixed, now), busy);
  }

  lemma SoundAfterMigration(c: Config, s: State, user: string, uid: u32, now: int, busy: set<int>)
    requires Sound(c, busy, s) && user in s.leases
    ensures Sound(c, busy, s.(leases := s.leases[user := s.leases[user].(uid := uid, acquired := now)]))
  {
    var more := s.leases[user := s.leases[user].(uid := uid, acquired := now)];
    assert Taken(more) == Taken(s.leases) by {
      forall ip | ip in Taken(s.leases) ensures ip in Taken(more) {
        var u :| u in s.leases && !s.leases[u].fixed && s.leases[u].ip == ip;
        assert u in more && !more[u].fixed && more[u].ip == ip;
      }
    }
  }

  lemma WithoutOrphans(c: Config, s: State, now: int, alive: set<u32>, gone: set<string>)
    requires gone == set u | u in s.leases && Orphan(c, s.leases[u], now, alive)
    ensures Apply(c, s, Sweep(now, alive)) == (s.(leases := s.leases - gone), Nothing)
  {
    assert s.leases - gone == map u | u in s.leases && !Orphan(c, s.leases[u], now, alive) :: s.leases[u];
  }

  /** What the bitmap hands out is what the specification chooses. */
  lemma LeastIsFirstFree(c: Config, leases: map<string, LeaseRec>, busy: set<int>, v: u32)
    requires c.pool.Some? && c.pool.value.lo <= v <= c.pool.value.hi && Agrees(c, busy, leases)
    requires v !in busy && forall w | c.pool.value.lo <= w < v :: w in busy
    ensures FirstFree(c.pool.value.lo, c.pool.value.hi, Taken(leases)) == Some(U32ToHost(v))
  {
    var r := c.pool.value;
    FirstFreeIs(r.lo, r.hi, Taken(leases));
    var ff := FirstFree(r.lo, r.hi, Taken(leases));
    if ff.Some? {
      var a := HostToU32(ff.value);
      assert a !in busy && U32ToHost(v) !in Taken(leases);
      assert v <= a <= v;
    }
  }

  lemma FullIsNone(c: Config, leases: map<string, LeaseRec>, busy: set<int>)
    requires c.pool.Some? && c.pool.value.lo <= c.pool.value.hi && Agrees(c, busy, leases)
    requires forall w | c.pool.value.lo <= w <= c.pool.value.hi :: w in busy
    ensures FirstFree(c.pool.value.lo, c.pool.value.hi, Taken(leases)) == None
  {
    FirstFreeIs(c.pool.value.lo, c.pool.value.hi, Taken(leases));
  }
}

module IpAllocators {
  import opened Hosts
  import opened Naming
  import opened Leases
  import opened DynamicPools
  import opened Sessions
  import opened PolicyEngines
  import opened YamlParser
  import opened AllocatorSpec
  import opened PoolCoupling

  class IpAllocator {
    const policy: PolicyEngine
    const dyn: DynamicPool?
    const sessions: SessionManager
    const poolName: string
    const leaseTimeout: u32

    ghost function PoolParts(): set<object> {
      if dyn == null then {} else {dyn, dyn.bits}
    }

    ghost function Conf(): Config {
      Config(if dyn == null then None else Some(Range(dyn.startH, dyn.endH)), poolName, leaseTimeout, policy.resolve)
    }

    /** The abstract state: the leases by user, and the policy in force. */
    ghost function Abs(): State
      reads policy, policy.active, policy.active.fixed, sessions, sessions.byUser.Values
    {
      State(sessions.Table(), policy.View())
    }

    ghost function Busy(): set<int>
      reads PoolParts()
    {
      if dyn == null || dyn.capacity > 8 * dyn.bits.Length then {} else dyn.Busy()
    }

    /** The two tables on their own, without the pool. */
    ghost predicate TablesValid()
      reads policy, policy.active, policy.active.fixed
      reads sessions, sessions.byUid.Values, sessions.byUser.Values
    {
      policy.Valid() && sessions.Valid()
    }

    /** The bytes of the bitmap. */
    ghost function Bitmap(): seq<octet>
      reads PoolParts()
    {
      if dyn == null then [] else dyn.bits[..]
    }

    ghost function Used(): int
      reads PoolParts()
    {
      if dyn == null then 0 else dyn.used
    }

    /** What every operation keeps, also when a uid turns up under a second name. */
    ghost predicate Sane()
      reads policy, policy.active, policy.active.fixed
      reads sessions, sessions.byUid.Values, sessions.byUser.Values, PoolParts()
    {
      && TablesValid()
      && (dyn != null ==> dyn.Valid())
      && Sound(Conf(), Busy(), Abs())
    }

    ghost predicate Valid()
      reads policy, policy.active, policy.active.fixed
      reads sessions, sessions.byUid.Values, sessions.byUser.Values, PoolParts()
    {
      Sane() && sessions.Coherent()
    }

    /** The taken addresses determine the bytes of the bitmap and the counter. */
    twostate lemma BusyDeterminesPool()
      requires dyn != null ==> old(dyn.Valid()) && dyn.Valid()
      requires Busy() == old(Busy())
      ensures Bitmap() == old(Bitmap()) && Used() == old(Used())
    {
      if dyn != null {
        BusyDeterminesBitmap(dyn.bits[..], old(dyn.bits[..]), dyn.startH, dyn.capacity);
      }
    }

    constructor (policy: PolicyEngine, dyn: DynamicPool?, poolName: string, leaseTimeout: u32)
      ensures this.policy == policy && this.dyn == dyn && this.poolName == poolName && this.leaseTimeout == leaseTimeout
      ensures fresh(sessions) && sessions.byUser == map[] && sessions.byUid == map[]
      ensures sessions.Valid() && sessions.Coherent()
    {
      this.policy := policy;
      this.dyn := dyn;
      this.sessions := new SessionManager();
      this.poolName := poolName;
      this.leaseTimeout := leaseTimeout;
    }

    /** `ip_allocator_create`.  The pool comes from the policy in force at this moment and is never
        rebuilt.  The new allocator is fit for use exactly when the interval is representable. */
    static method Create(policy: PolicyEngine, poolName: Option<string>, leaseTimeout: u32) returns (a: IpAllocator)
      requires policy.Valid()
      ensures fresh(a) && fresh(a.sessions) && fresh(a.PoolParts())
      ensures a.policy == policy && a.leaseTimeout == if leaseTimeout != 0 then leaseTimeout else 3600
      ensures a.poolName == if poolName.Some? then poolName.value else "cupp"
      ensures var p := policy.View();
              && (a.dyn != null <==>
                    && p.start.Some? && p.end.Some? && p.start.value.family == Inet && p.end.value.family == Inet
                    && HostToU32(p.start.value) <= HostToU32(p.end.value))
              && (a.dyn != null ==> a.dyn.startH == HostToU32(p.start.value) && a.dyn.endH == HostToU32(p.end.value))
      ensures a.TablesValid() && a.sessions.Coherent() && a.sessions.byUid == map[]
      ensures a.Valid() <==> a.dyn == null || Representable(a.dyn.startH, a.dyn.endH)
      ensures a.Abs() == State(map[], policy.View())
    {
      hide HostToU32, U32ToHost, Representable, DynamicPool.Valid, DynamicPool.Busy;
      hide PolicyEngine.Valid, PolicyEngine.View, Sound, IpAllocator.Valid, IpAllocator.Abs;
      hide SessionManager.Valid, SessionManager.Coherent, SessionManager.Table;
      var name := if poolName.Some? then poolName.value else "cupp";
      var timeout := if leaseTimeout != 0 then leaseTimeout else 3600;
      var dyn: DynamicPool? := null;
      var ok, start, end := policy.GetPool();
      if ok {
        dyn := DynamicPool.Create(start, end);
      }
      a := new IpAllocator(policy, dyn, name, timeout);
      a.EmptyIsValid();
    }

    /** Without leases the allocator is fit for use exactly when its pool is. */
    lemma EmptyIsValid()
      requires TablesValid() && sessions.byUser == map[] && sessions.Coherent()
      requires dyn != null && dyn.Valid() ==> dyn.Busy() == {}
      ensures Valid() <==> dyn == null || dyn.Valid()
      ensures Abs() == State(map[], policy.View())
    {
    }

    /** Whether the connection's pool list names the pool this plugin claims. */
    method PoolsInclude(pools: PoolList) returns (found: bool)
      ensures found <==> pools.Some? && exists i :: 0 <= i < |pools.value| && pools.value[i] == Some(poolName)
      ensures found <==> Claimed(Conf(), pools)
    {
      if pools.None? || |pools.value| == 0 {
        return false;
      }
      for i := 0 to |pools.value|
        invariant Some(poolName) !in pools.value[..i]
      {
        var name := pools.value[i];
        if name.Some? && name.value == poolName {
          return true;
        }
      }
      return false;
    }

    /** The part of release that runs after `lock` is given up: a dynamic address goes back to the
        pool and the lease, which nobody else can reach any more, is destroyed. */
    method Recycle(lease: Lease)
      requires TablesValid() && (dyn != null ==> dyn.Valid())
      requires lease !in sessions.byUser.Values && lease !in sessions.byUid.Values
      requires !lease.freed && (!lease.fixed ==> lease.ip.family == Inet)
      modifies lease, PoolParts()
      ensures TablesValid() && (dyn != null ==> dyn.Valid())
      ensures Abs() == old(Abs()) && sessions.Coherent() == old(sessions.Coherent())
      ensures Busy() == if lease.fixed then old(Busy()) else old(Busy()) - {HostToU32(lease.ip)}
      ensures lease.freed
    {
      hide SessionManager.Valid, SessionManager.Coherent, SessionManager.Table;
      hide PolicyEngine.Valid, PolicyEngine.View, DynamicPool.Busy, HostToU32;
      if !lease.fixed && dyn != null {
        dyn.Release(Some(lease.ip));
      }
      lease.Destroy();
    }

    /** Unbinds the lease of a uid, gives a dynamic address back to the pool, destroys the lease. */
    method ReleaseByUidImpl(uid: u32) returns (ok: bool)
      requires Sane()
      modifies sessions, sessions.byUser.Values, PoolParts()
      ensures Sane()
      ensures ok <==> uid in old(sessions.byUid)
      ensures Abs() == if !ok then old(Abs())
                       else old(Abs()).(leases := old(Abs()).leases - {old(sessions.byUid)[uid].username})
      ensures old(sessions.Coherent()) ==>
                && Valid() && (ok <==> HasUid(old(Abs()).leases, uid))
                && Abs() == old(Abs()).(leases := WithoutUid(old(Abs()).leases, uid))
      ensures sessions.byUid == old(sessions.byUid) - {uid}
      ensures sessions.byUser
           == old(if uid !in sessions.byUid then sessions.byUser
                  else sessions.byUser - {sessions.byUid[uid].username})
      ensures forall u | u in sessions.byUser :: unchanged(sessions.byUser[u])
      ensures uid in old(sessions.byUid) ==>
                var l := old(sessions.byUid)[uid];
                l.freed && Busy() == if l.fixed then old(Busy()) else old(Busy()) - {HostToU32(l.ip)}
      ensures uid !in old(sessions.byUid) ==> unchanged(PoolParts())
    {
      hide Sound, WithoutUid, HasUid, HostToU32;
      hide SessionManager.Valid, SessionManager.Coherent, SessionManager.Table;
      hide PolicyEngine.Valid, PolicyEngine.View, DynamicPool.Valid, DynamicPool.Busy, Busy;
      ghost var before, busy := Abs(), Busy();
      var lease := sessions.Unbind(uid);
      ghost var after := Abs();
      if lease == null {
        assert after == before;
        return false;
      }
      assert after == before.(leases := before.leases - {lease.username});
      SoundAfterRemoval(Conf(), before, lease.username, busy);
      Recycle(lease);
      return true;
    }

    /** An address from the pool, if there is a pool and it has one left. */
    method TakeFromPool() returns (ip: Option<Host>)
      requires Sane()
      modifies PoolParts()
      ensures TablesValid() && (dyn != null ==> dyn.Valid()) && Abs() == old(Abs())
      ensures ip == if dyn == null then None else FirstFree(dyn.startH, dyn.endH, Taken(old(Abs()).leases))
      ensures ip.None? ==> Busy() == old(Busy()) && Bitmap() == old(Bitmap())
      ensures ip.Some? ==> HostToU32(ip.value) !in old(Busy()) && Busy() == old(Busy()) + {HostToU32(ip.value)}
    {
      hide SessionManager.Valid, SessionManager.Coherent, SessionManager.Table, Snapshot.Valid;
      hide DynamicPool.Busy, FirstFree, HostToU32, U32ToHost, Taken, Wf, Agrees;
      ip := None;
      if dyn != null {
        ghost var leases, busy := Abs().leases, Busy();
        ghost var v;
        ip, v := dyn.Acquire();
        if ip.Some? {
          LeastIsFirstFree(Conf(), leases, busy, v);
          U32RoundTrip(v);
        } else {
          FullIsNone(Conf(), leases, busy);
        }
      }
    }

    /** The address for a user without a lease: the fixed one unless the name looks like a
        placeholder, else one from the pool. */
    method ChooseAddress(username: string) returns (ip: Option<Host>, fixed: bool)
      requires Sane()
      modifies PoolParts()
      ensures TablesValid() && (dyn != null ==> dyn.Valid()) && Abs() == old(Abs())
      ensures Choose(Conf(), old(Abs()), username) == if ip.None? then None else Some((ip.value, fixed))
      ensures ip.None? || fixed ==> Busy() == old(Busy()) && Bitmap() == old(Bitmap())
      ensures ip.Some? && !fixed ==>
                HostToU32(ip.value) !in old(Busy()) && Busy() == old(Busy()) + {HostToU32(ip.value)}
    {
      hide SessionManager.Valid, SessionManager.Coherent, SessionManager.Table;
      hide FirstFree, HostToU32, U32ToHost, Taken, Wf, Agrees;
      ip, fixed := None, false;
      if !IsAnon(username) {
        ip := policy.LookupFixed(Some(username));
        fixed := ip.Some?;
      }
      if ip.None? {
        ip := TakeFromPool();
      }
    }

    /** Binds a new lease; the overwrite branch is not taken.  The indices stay coherent exactly when the
        uid is free. */
    method BindNew(username: string, uid: u32, ip: Host, fixed: bool, now: int) returns (lease: Lease)
      requires TablesValid() && (dyn != null ==> dyn.Valid())
      requires username !in sessions.byUser
      requires Sound(Conf(), Busy(), Abs().(leases := Abs().leases[username := LeaseRec(uid, ip, fixed, now)]))
      modifies sessions, sessions.byUser.Values
      ensures Sane() && fresh(lease) && lease.username == username && lease.Rec() == LeaseRec(uid, ip, fixed, now)
      ensures old(sessions.Coherent()) ==> (sessions.Coherent() <==> uid !in old(sessions.byUid))
      ensures Abs() == old(Abs()).(leases := old(Abs()).leases[username := LeaseRec(uid, ip, fixed, now)])
      ensures sessions.byUser == old(sessions.byUser)[username := lease]
      ensures sessions.byUid == old(sessions.byUid)[uid := lease]
      ensures forall u | u in old(sessions.byUser) :: unchanged(old(sessions.byUser)[u])
    {
      hide Sound, SessionManager.Valid, SessionManager.Coherent, SessionManager.Table;
      hide PolicyEngine.Valid, PolicyEngine.View, DynamicPool.Valid, DynamicPool.Busy;
      sessions.ClashIsTaken(username, uid);
      lease := sessions.BindLease(username, uid, ip, fixed, now);
    }

    /** Chooses an address for a user without a lease and binds it, if there is one. */
    method BindChosen(username: string, uid: u32, now: int) returns (lease: Lease?)
      requires Valid() && username !in sessions.byUser
      modifies sessions, sessions.byUser.Values, PoolParts()
      ensures Sane() && (Valid() <==> lease == null || uid !in old(sessions.byUid))
      ensures lease == null <==> Choose(Conf(), old(Abs()), username).None?
      ensures lease == null ==> unchanged(sessions) && Abs() == old(Abs()) && Busy() == old(Busy())
      ensures lease != null ==>
                var (ip, fixed) := Choose(Conf(), old(Abs()), username).value;
                && fresh(lease) && lease.username == username && lease.Rec() == LeaseRec(uid, ip, fixed, now)
                && Abs() == old(Abs()).(leases := old(Abs()).leases[username := LeaseRec(uid, ip, fixed, now)])
                && sessions.byUser == old(sessions.byUser)[username := lease]
                && sessions.byUid == old(sessions.byUid)[uid := lease]
                && (Busy() == if fixed then old(Busy()) else old(Busy()) + {HostToU32(ip)})
                && (!fixed ==> HostToU32(ip) !in old(Busy()))
      ensures forall u | u in old(sessions.byUser) :: unchanged(old(sessions.byUser)[u])
    {
      hide Sound, SessionManager.Valid, SessionManager.Coherent, SessionManager.Table;
      hide PolicyEngine.Valid, PolicyEngine.View, DynamicPool.Valid, DynamicPool.Busy;
      hide Choose, HostToU32;
      ghost var before, busy := Abs(), Busy();
      sessions.TableIs();
      var ip, fixed := ChooseAddress(username);
      if ip.None? {
        return null;
      }
      SoundAfterInsert(Conf(), before, username, uid, now, busy);
      lease := BindNew(username, uid, ip.value, fixed, now);
    }

    /** Releases a lease that has just been bound: the leases, the taken addresses and the user index are
        those from before. */
    method RollBack(lease: Lease, uid: u32, ghost before: State, ghost busy: set<int>, ghost users: map<string, Lease>)
      requires Sane() && uid in sessions.byUid && sessions.byUid[uid] == lease
      requires lease.username !in users && sessions.byUser == users[lease.username := lease]
      requires lease.username !in before.leases
      requires Abs() == before.(leases := before.leases[lease.username := lease.Rec()])
      requires Busy() == if lease.fixed then busy else busy + {HostToU32(lease.ip)}
      requires !lease.fixed ==> HostToU32(lease.ip) !in busy
      modifies sessions, sessions.byUser.Values, PoolParts()
      ensures Sane() && (old(sessions.Coherent()) ==> sessions.Coherent())
      ensures Abs() == before && Busy() == busy && sessions.byUser == users
      ensures sessions.byUid == old(sessions.byUid) - {uid}
      ensures forall u | u in users :: unchanged(users[u])
    {
      hide WithoutUid, HasUid, HostToU32, IpAllocator.Sane, IpAllocator.Abs, Busy, SessionManager.Coherent;
      var _ := ReleaseByUidImpl(uid);
      assert before.leases[lease.username := lease.Rec()] - {lease.username} == before.leases;
      assert users[lease.username := lease] - {lease.username} == users;
    }

    /** The path of `acquire_address` for a user without a lease.  When the result cannot be cloned,
        everything is as before the call, except that a uid held under another name is lost. */
    method AcquireNew(username: string, uid: u32, now: int, cloneOk: bool) returns (r: Option<Host>)
      requires Valid() && username !in sessions.byUser
      modifies sessions, sessions.byUser.Values, PoolParts()
      ensures Sane() && (Valid() <==> Choose(Conf(), old(Abs()), username).None? || uid !in old(sessions.byUid))
      ensures r == match Choose(Conf(), old(Abs()), username)
                   case None => None
                   case Some((ip, fixed)) => if cloneOk then Some(ip) else None
      ensures r.None? ==> Abs() == old(Abs()) && Busy() == old(Busy()) && sessions.byUser == old(sessions.byUser)
      ensures r.None? && Valid() ==> sessions.byUid == old(sessions.byUid)
      ensures r.Some? ==>
                var (ip, fixed) := Choose(Conf(), old(Abs()), username).value;
                && Abs() == old(Abs()).(leases := old(Abs()).leases[username := LeaseRec(uid, ip, fixed, now)])
                && username in sessions.byUser && fresh(sessions.byUser[username])
                && sessions.byUser == old(sessions.byUser)[username := sessions.byUser[username]]
      ensures forall u | u in old(sessions.byUser) :: unchanged(old(sessions.byUser)[u])
    {
      hide Sound, SessionManager.Valid, SessionManager.Coherent, SessionManager.Table;
      hide PolicyEngine.Valid, PolicyEngine.View, DynamicPool.Valid, DynamicPool.Busy, Busy;
      hide Choose, HostToU32, WithoutUid, HasUid, IpAllocator.Sane, IpAllocator.Abs;
      assert username !in Abs().leases by { NotInLeases(username); }
      var lease := BindChosen(username, uid, now);
      if lease == null {
        return None;
      }
      if !cloneOk {
        ghost var displaced := uid in old(sessions.byUid);
        RollBack(lease, uid, old(Abs()), old(Busy()), old(sessions.byUser));
        if displaced {
          OrphanedByDisplacement(uid);
        }
        return None;
      }
      return Some(lease.ip);
    }

    lemma NotInLeases(username: string)
      requires username !in sessions.byUser
      ensures username !in Abs().leases
    {
    }

    /** A lease that is still in the user index, but whose uid nobody has any more. */
    twostate lemma OrphanedByDisplacement(uid: u32)
      requires old(Valid()) && uid in old(sessions.byUid)
      requires sessions.byUser == old(sessions.byUser) && uid !in sessions.byUid
      requires forall u | u in sessions.byUser :: unchanged(sessions.byUser[u])
      ensures !sessions.Coherent()
    {
      var l := old(sessions.byUid[uid]);
      assert sessions.byUser[l.username] == l;
    }

    /** The path of `acquire_address` for a user who has a lease: same address, new uid. */
    method AcquireAgain(username: string, uid: u32, now: int, cloneOk: bool) returns (r: Option<Host>)
      requires Valid() && username in sessions.byUser
      modifies sessions, sessions.byUser.Values
      ensures Sane() && (Valid() <==> old(sessions.NoClash(username, uid)))
      ensures sessions.byUser == old(sessions.byUser)
      ensures uid == old(sessions.byUser[username].uniqueId) ==> sessions.byUid == old(sessions.byUid)
      ensures var l := old(Abs()).leases[username];
              && r == (if cloneOk then Some(l.ip) else None)
              && Abs() == old(Abs()).(leases := old(Abs()).leases[username := l.(uid := uid, acquired := now)])
    {
      hide Sound, SessionManager.Valid, SessionManager.Coherent, SessionManager.Table;
      hide PolicyEngine.Valid, PolicyEngine.View, DynamicPool.Valid, DynamicPool.Busy;
      sessions.TableIs();
      SoundAfterMigration(Conf(), Abs(), username, uid, now, Busy());
      var lease := sessions.Migrate(username, uid, now);
      return if cloneOk then Some(lease.ip) else None;
    }

    /** A uid clashes exactly when the table knows it under another name. */
    lemma ClashIsHeld(user: string, uid: u32)
      requires Valid()
      ensures sessions.NoClash(user, uid) <==> !HeldByAnother(Abs().leases, user, uid)
    {
      hide Sound;
      sessions.UidsOfTable(uid);
    }

    /** `acquire_address` under `lock`, once the pool is claimed and the SA is known. */
    method AcquireFor(sa: Sa, now: int, cloneOk: bool) returns (r: Option<Host>)
      requires Valid()
      modifies sessions, sessions.byUser.Values, PoolParts()
      ensures Sane() && (Valid() <==> !Displaced(Conf(), old(Abs()), sa))
      ensures (Abs(), r) == AllocatorSpec.AcquireFor(Conf(), old(Abs()), sa, now, cloneOk)
      ensures forall u | u in old(sessions.byUser) ::
                u in sessions.byUser && sessions.byUser[u] == old(sessions.byUser)[u]
      ensures fresh(sessions.byUser.Values - old(sessions.byUser.Values))
      ensures Abs() == old(Abs()) ==>
                && sessions.byUser == old(sessions.byUser) && (Valid() ==> sessions.byUid == old(sessions.byUid))
                && Bitmap() == old(Bitmap()) && Used() == old(Used())
    {
      hide Sound, SessionManager.Valid, SessionManager.Coherent, SessionManager.Table;
      hide PolicyEngine.Valid, PolicyEngine.View, DynamicPool.Valid, DynamicPool.Busy;
      hide EffectiveName, Choose, HeldByAnother;
      var username, uid := EffectiveName(sa), sa.uid;
      sessions.TableIs();
      ClashIsHeld(username, uid);
      var lease := sessions.LookupByUser(username);
      if lease != null {
        r := AcquireAgain(username, uid, now, cloneOk);
      } else {
        sessions.ClashIsTaken(username, uid);
        r := AcquireNew(username, uid, now, cloneOk);
        if r.None? {
          BusyDeterminesPool();
        }
      }
    }

    /** `acquire_address`: what it answers and what it leaves behind is what the specification says.  No
        live lease is destroyed.  A call that changes no lease changes nothing at all: in particular a new
        lease whose address cannot be cloned leaves no trace in the indices, the bytes of the bitmap or the
        counter.  The allocator stays valid exactly when no uid is taken away from another user. */
    method AcquireAddress(pools: PoolList, sa: Option<Sa>, now: int, cloneOk: bool) returns (r: Option<Host>)
      requires Valid()
      modifies sessions, sessions.byUser.Values, PoolParts()
      ensures Sane() && (Valid() <==> !Displaces(Conf(), old(Abs()), Acquire(pools, sa, now, cloneOk)))
      ensures (Abs(), Address(r)) == Apply(Conf(), old(Abs()), Acquire(pools, sa, now, cloneOk))
      ensures pools.None? || Some(poolName) !in pools.value ==> r.None? && Abs() == old(Abs())
      ensures forall u | u in old(sessions.byUser) ::
                u in sessions.byUser && sessions.byUser[u] == old(sessions.byUser)[u]
      ensures fresh(sessions.byUser.Values - old(sessions.byUser.Values))
      ensures Abs() == old(Abs()) ==>
                && sessions.byUser == old(sessions.byUser) && (Valid() ==> sessions.byUid == old(sessions.byUid))
                && Bitmap() == old(Bitmap()) && Used() == old(Used())
    {
      hide IpAllocator.Sane, IpAllocator.Abs, AllocatorSpec.AcquireFor, Displaced, SessionManager.Coherent;
      var claimed := PoolsInclude(pools);
      if !claimed || sa.None? {
        return None;
      }
      r := AcquireFor(sa.value, now, cloneOk);
    }

    /** `release_address`. */
    method ReleaseAddress(sa: Option<Sa>) returns (ok: bool)
      requires Valid()
      modifies sessions, sessions.byUser.Values, PoolParts()
      ensures Valid()
      ensures (Abs(), Answer(ok)) == Apply(Conf(), old(Abs()), AllocatorSpec.Release(sa))
      ensures sessions.byUser.Values <= old(sessions.byUser.Values)
    {
      if sa.None? {
        return false;
      }
      ok := ReleaseByUidImpl(sa.value.uid);
    }

    /** The sweep callback: a lease whose SA is gone is released, any other is left alone. */
    method SweepCb(lease: Lease, alive: set<u32>)
      requires Valid() && sessions.Indexed(lease) && !lease.freed
      modifies sessions, sessions.byUser.Values, PoolParts()
      ensures Valid() && policy.View() == old(policy.View())
      ensures sessions.byUser ==
                if old(lease.uniqueId) in alive then old(sessions.byUser) else old(sessions.byUser) - {lease.username}
      ensures forall u | u in sessions.byUser :: unchanged(sessions.byUser[u])
      ensures old(lease.uniqueId) !in alive ==> lease.freed
    {
      if lease.uniqueId in alive {
        return;
      }
      var _ := ReleaseByUidImpl(lease.uniqueId);
    }

    /** The callbacks of a sweep, one for each lease of the snapshot.  Each lease is still live when its
        turn comes, because the earlier callbacks destroy their own lease only. */
    method SweepAll(snapshot: seq<Lease>, alive: set<u32>) returns (ghost gone: set<string>)
      requires Valid()
      requires forall i | 0 <= i < |snapshot| :: sessions.Indexed(snapshot[i]) && !snapshot[i].freed
      requires forall i, j | 0 <= i < j < |snapshot| :: snapshot[i] != snapshot[j]
      modifies sessions, sessions.byUser.Values, PoolParts()
      ensures Valid() && policy.View() == old(policy.View())
      ensures sessions.byUser == old(sessions.byUser) - gone
      ensures forall u | u in sessions.byUser :: unchanged(sessions.byUser[u])
      ensures forall j | 0 <= j < |snapshot| && old(snapshot[j].uniqueId) !in alive :: snapshot[j].username in gone
      ensures forall u | u in gone ::
                exists j :: 0 <= j < |snapshot| && snapshot[j].username == u && old(snapshot[j].uniqueId) !in alive
      ensures forall j | 0 <= j < |snapshot| && old(snapshot[j].uniqueId) !in alive :: snapshot[j].freed
    {
      hide Sound, SessionManager.Valid, SessionManager.Coherent, SessionManager.Table;
      hide DynamicPool.Valid, PolicyEngine.Valid, PolicyEngine.View;
      gone := {};
      for i := 0 to |snapshot|
        invariant Valid() && policy.View() == old(policy.View())
        invariant sessions.byUser == old(sessions.byUser) - gone
        invariant forall u | u in sessions.byUser :: unchanged(sessions.byUser[u])
        invariant forall j | i <= j < |snapshot| :: snapshot[j].username !in gone
        invariant forall j | 0 <= j < i && old(snapshot[j].uniqueId) !in alive :: snapshot[j].username in gone
        invariant forall u | u in gone ::
            exists j :: 0 <= j < i && snapshot[j].username == u && old(snapshot[j].uniqueId) !in alive
        invariant forall j | 0 <= j < i && old(snapshot[j].uniqueId) !in alive :: snapshot[j].freed
      {
        ghost var l := snapshot[i];
        assert old(sessions.Indexed(l));
        SweepCb(snapshot[i], alive);
        if old(l.uniqueId) !in alive {
          gone := gone + {l.username};
        }
      }
    }

    /** `sweep`: the overdue leases whose SA is gone are released and destroyed, every other lease is the
        same object with the same contents. */
    method Sweep(now: int, alive: set<u32>)
      requires Valid()
      modifies sessions, sessions.byUser.Values, PoolParts()
      ensures Valid()
      ensures (Abs(), Nothing) == Apply(Conf(), old(Abs()), AllocatorSpec.Sweep(now, alive))
      ensures forall u | u in old(sessions.byUser) ::
                u in sessions.byUser <==>
                  || now - old(sessions.byUser[u].acquired) <= leaseTimeout
                  || old(sessions.byUser[u].uniqueId) in alive
      ensures forall u | u in sessions.byUser ::
                && u in old(sessions.byUser) && sessions.byUser[u] == old(sessions.byUser)[u]
                && unchanged(sessions.byUser[u])
      ensures forall u | u in old(sessions.byUser) && u !in sessions.byUser :: old(sessions.byUser)[u].freed
    {
      hide Sound, SessionManager.Valid, SessionManager.Coherent, SessionManager.Table, Apply;
      hide DynamicPool.Valid, PolicyEngine.Valid, PolicyEngine.View;
      ghost var table, before := sessions.byUser, Abs();
      sessions.EachUnderItsName();
      sessions.TableIs();
      var snapshot := sessions.Overdues(now, leaseTimeout);
      assert forall j | 0 <= j < |snapshot| :: table[snapshot[j].username] == snapshot[j];
      ghost var orphans := set u | u in before.leases && Orphan(Conf(), before.leases[u], now, alive);
      ghost var gone := SweepAll(snapshot, alive);
      assert gone == orphans by {
        forall u | u in orphans ensures u in gone {
          assert table[u] in snapshot;
        }
      }
      WithoutOrphans(Conf(), before, now, alive, gone);
      sessions.TableWithout(gone);
    }

    /** A reload of the policy: leases, and the pool built at construction, stay as they are. */
    method ReloadPolicy(file: Option<seq<Event>>) returns (ok: bool)
      requires Valid()
      modifies policy, policy.active
      ensures Valid()
      ensures (Abs(), Answer(ok)) == Apply(Conf(), old(Abs()), AllocatorSpec.Reload(file))
      ensures fresh({policy.active} - old({policy.active}))
    {
      hide SessionManager.Valid, SessionManager.Coherent, SessionManager.Table, DynamicPool.Valid;
      ok := policy.Reload(file);
    }

    /** No leak: the counter is the number of live dynamic leases and never exceeds the capacity. */
    lemma UsedCountsLeases()
      requires Valid() && dyn != null
      ensures Used() == |DynamicUsers(Abs().leases)| <= dyn.capacity
    {
      BusyCountsLeases(Conf(), Abs(), Busy());
      RoomLeft(Busy(), dyn.startH, dyn.capacity);
    }

    /** `ip_allocator_destroy`: every remaining lease is destroyed, each exactly once. */
    method Destroy()
      requires TablesValid() && sessions.Coherent()
      modifies sessions.byUid.Values
      ensures forall u | u in sessions.byUser :: sessions.byUser[u].freed
    {
      sessions.Shutdown();
    }
  }
}
