/** The tables and the set of bits of the interleaved model are those of the classes: each critical section
    of table and pool, run on the objects, moves the model as its step function says. */
module WorldMirror {
  import opened Hosts
  import opened DynamicPools
  import opened Leases
  import opened Sessions
  import opened AllocatorSpec
  import opened Interleaving

  /** What the two indices say: the lease of each user, and the user of each uid. */
  datatype View = View(leases: map<string, HeapLease>, uids: map<u32, string>)

  function Migrated(v: View, user: string, uid: u32): View {
    if user !in v.leases then v
    else View(v.leases[user := v.leases[user].(uid := uid)], (v.uids - {v.leases[user].uid})[uid := user])
  }

  function Bound(v: View, user: string, uid: u32, ip: Host, fixed: bool): View {
    var uids := if user in v.leases then v.uids - {v.leases[user].uid} else v.uids;
    View(v.leases[user := HeapLease(user, uid, ip, fixed)], uids[uid := user])
  }

  function Unbound(v: View, uid: u32): View {
    if uid !in v.uids then v else View(v.leases - {v.uids[uid]}, v.uids - {uid})
  }

  // ---- the view of the model ----

  /** Each lease sits under its own keys, and the next identity is new. */
  ghost predicate Keyed(w: World) {
    && (forall u | u in w.byUser :: w.byUser[u] in w.heap && w.heap[w.byUser[u]].user == u)
    && (forall k | k in w.byUid :: w.byUid[k] in w.heap && w.heap[w.byUid[k]].uid == k && InTable(w, w.byUid[k]))
    && w.next !in w.heap
  }

  /** The invariant of the interleaved model says so of every state it reaches. */
  lemma ReachableIsKeyed(c: Config, names: Names, w: World)
    requires Inv(c, names, w)
    ensures Keyed(w)
  {
    hide BitsOk, OwnersOk, LockOk;
  }

  function LeasesIn(byUser: map<string, Lid>, heap: map<Lid, HeapLease>): map<string, HeapLease> {
    map u | u in byUser && byUser[u] in heap :: heap[byUser[u]]
  }

  function UidsIn(byUid: map<u32, Lid>, heap: map<Lid, HeapLease>): map<u32, string> {
    map k | k in byUid && byUid[k] in heap :: heap[byUid[k]].user
  }

  function ViewOf(w: World): View {
    View(LeasesIn(w.byUser, w.heap), UidsIn(w.byUid, w.heap))
  }

  predicate AllIn<K>(index: map<K, Lid>, heap: map<Lid, HeapLease>) {
    forall k | k in index :: index[k] in heap
  }

  lemma LeaseChanges(byUser: map<string, Lid>, heap: map<Lid, HeapLease>, user: string, h: HeapLease)
    requires AllIn(byUser, heap) && user in byUser && forall u | u in byUser && u != user :: byUser[u] != byUser[user]
    ensures LeasesIn(byUser, heap[byUser[user] := h]) == LeasesIn(byUser, heap)[user := h]
  {
  }

  lemma UidsKeep(byUid: map<u32, Lid>, heap: map<Lid, HeapLease>, l: Lid, h: HeapLease)
    requires AllIn(byUid, heap) && (l in heap ==> heap[l].user == h.user)
    ensures UidsIn(byUid, heap[l := h]) == UidsIn(byUid, heap)
  {
  }

  lemma LeasesLose(byUser: map<string, Lid>, heap: map<Lid, HeapLease>, user: string, gone: set<Lid>)
    requires AllIn(byUser, heap) && forall u | u in byUser && u != user :: byUser[u] !in gone
    ensures LeasesIn(byUser - {user}, heap - gone) == LeasesIn(byUser, heap) - {user}
  {
  }

  lemma UidsLose(byUid: map<u32, Lid>, heap: map<Lid, HeapLease>, uid: u32, gone: set<Lid>)
    requires AllIn(byUid, heap) && forall k | k in byUid && k != uid :: byUid[k] !in gone
    ensures UidsIn(byUid - {uid}, heap - gone) == UidsIn(byUid, heap) - {uid}
  {
  }

  lemma UidsGain(byUid: map<u32, Lid>, heap: map<Lid, HeapLease>, uid: u32, l: Lid)
    requires AllIn(byUid, heap) && l in heap
    ensures UidsIn(byUid[uid := l], heap) == UidsIn(byUid, heap)[uid := heap[l].user]
  {
  }

  lemma LeasesGain(byUser: map<string, Lid>, heap: map<Lid, HeapLease>, user: string, l: Lid)
    requires AllIn(byUser, heap) && l in heap
    ensures LeasesIn(byUser[user := l], heap) == LeasesIn(byUser, heap)[user := heap[l]]
  {
  }

  lemma NewLease(byUser: map<string, Lid>, heap: map<Lid, HeapLease>, l: Lid, h: HeapLease)
    requires AllIn(byUser, heap) && l !in heap
    ensures LeasesIn(byUser, heap[l := h]) == LeasesIn(byUser, heap)
  {
  }

  lemma MigrateMovesView(w: World, user: string, uid: u32)
    requires Keyed(w)
    ensures ViewOf(DoMigrate(w, user, uid)) == Migrated(ViewOf(w), user, uid)
  {
    if user in w.byUser {
      var l := w.byUser[user];
      var old_, h := w.heap[l].uid, w.heap[l].(uid := uid);
      assert AllIn(w.byUser, w.heap) && AllIn(w.byUid, w.heap) && AllIn(w.byUid - {old_}, w.heap);
      assert forall u | u in w.byUser && u != user :: w.byUser[u] != l;
      assert w.heap - {} == w.heap && ViewOf(w).leases[user] == w.heap[l] && h.user == user;
      hide Keyed, LeasesIn, UidsIn;
      LeaseChanges(w.byUser, w.heap, user, h);
      UidsLose(w.byUid, w.heap, old_, {});
      UidsGain(w.byUid - {old_}, w.heap, uid, l);
      UidsKeep((w.byUid - {old_})[uid := l], w.heap, l, h);
    }
  }

  lemma UnbindMovesView(w: World, uid: u32)
    requires Keyed(w)
    ensures ViewOf(DoUnbind(w, uid)) == Unbound(ViewOf(w), uid)
  {
  }

  lemma EvictMovesView(w: World, user: string)
    requires Keyed(w) && user in w.byUser
    ensures var v := DoEvict(w, user);
            && ViewOf(v) == View(ViewOf(w).leases - {user}, ViewOf(w).uids - {ViewOf(w).leases[user].uid})
            && v.next == w.next && v.next !in v.heap && AllIn(v.byUser, v.heap) && AllIn(v.byUid, v.heap)
  {
    var l := w.byUser[user];
    assert AllIn(w.byUser, w.heap) && AllIn(w.byUid, w.heap);
    assert forall u | u in w.byUser && u != user :: w.byUser[u] != l;
    assert forall k | k in w.byUid && k != w.heap[l].uid :: w.byUid[k] != l;
    assert ViewOf(w).leases[user] == w.heap[l] && w.heap[l].user == user && w.next !in w.heap;
    hide Keyed, LeasesIn, UidsIn;
    LeasesLose(w.byUser, w.heap, user, {l});
    UidsLose(w.byUid, w.heap, w.heap[l].uid, {l});
  }

  lemma InsertMovesView(w: World, h: HeapLease)
    requires w.next !in w.heap && AllIn(w.byUser, w.heap) && AllIn(w.byUid, w.heap)
    ensures ViewOf(w.(heap := w.heap[w.next := h], next := w.next + 1,
                      byUid := w.byUid[h.uid := w.next], byUser := w.byUser[h.user := w.next]))
         == View(ViewOf(w).leases[h.user := h], ViewOf(w).uids[h.uid := h.user])
  {
    var more := w.heap[w.next := h];
    assert AllIn(w.byUser, more) && AllIn(w.byUid, more);
    hide LeasesIn, UidsIn;
    NewLease(w.byUser, w.heap, w.next, h);
    LeasesGain(w.byUser, more, h.user, w.next);
    UidsKeep(w.byUid, w.heap, w.next, h);
    UidsGain(w.byUid, more, h.uid, w.next);
  }

  lemma BindMovesView(w: World, user: string, uid: u32, ip: Host, fixed: bool)
    requires Keyed(w)
    ensures ViewOf(DoBind(w, user, uid, ip, fixed)) == Bound(ViewOf(w), user, uid, ip, fixed)
  {
    hide Keyed, LeasesIn, UidsIn, AllIn;
    var h, leases := HeapLease(user, uid, ip, fixed), ViewOf(w).leases;
    KeyedFindsLease(w, user);
    if user in w.byUser {
      EvictMovesView(w, user);
      assert (leases - {user})[user := h] == leases[user := h];
    }
    var v := DoEvict(w, user);
    assert user !in w.byUser ==> v == w;
    hide DoEvict, ViewOf;
    InsertMovesView(v, h);
  }

  lemma KeyedFindsLease(w: World, user: string)
    requires Keyed(w)
    ensures AllIn(w.byUser, w.heap) && AllIn(w.byUid, w.heap) && w.next !in w.heap
    ensures user in w.byUser <==> user in ViewOf(w).leases
  {
  }

  // ---- the view of the objects ----

  ghost function Holds(l: Lease): HeapLease
    reads l
  {
    HeapLease(l.username, l.uniqueId, l.ip, l.fixed)
  }

  /** The table without the times. */
  function Untimed(table: map<string, LeaseRec>): map<string, HeapLease> {
    map u | u in table :: HeapLease(u, table[u].uid, table[u].ip, table[u].fixed)
  }

  ghost function NamesIn(byUid: map<u32, Lease>): map<u32, string> {
    map k | k in byUid :: byUid[k].username
  }

  ghost function ViewOfTable(s: SessionManager): View
    reads s, s.byUser.Values
  {
    View(Untimed(s.Table()), NamesIn(s.byUid))
  }

  ghost predicate Mirrors(s: SessionManager, w: World)
    reads s, s.byUser.Values
  {
    ViewOfTable(s) == ViewOf(w)
  }

  lemma UntimedUpdate(table: map<string, LeaseRec>, user: string, r: LeaseRec)
    ensures Untimed(table[user := r]) == Untimed(table)[user := HeapLease(user, r.uid, r.ip, r.fixed)]
  {
  }

  lemma UntimedLoses(table: map<string, LeaseRec>, user: string)
    ensures Untimed(table - {user}) == Untimed(table) - {user}
  {
  }

  lemma NamesGain(byUid: map<u32, Lease>, gone: set<u32>, uid: u32, lease: Lease)
    ensures NamesIn((byUid - gone)[uid := lease]) == (NamesIn(byUid) - gone)[uid := lease.username]
  {
  }

  lemma NamesLose(byUid: map<u32, Lease>, gone: set<u32>)
    ensures NamesIn(byUid - gone) == NamesIn(byUid) - gone
  {
  }

  /** Both begin empty. */
  lemma EmptyMirrors(s: SessionManager, w: World)
    requires s.byUser == map[] && s.byUid == map[] && Init(w)
    ensures Mirrors(s, w) && Keyed(w)
  {
    assert ViewOf(w).leases == map[] && ViewOf(w).uids == map[];
  }

  /** Finding a lease by name finds the one that the model finds. */
  method Lookup(s: SessionManager, ghost w: World, user: string) returns (lease: Lease?)
    requires s.Valid() && Keyed(w) && Mirrors(s, w)
    ensures lease == null <==> user !in w.byUser
    ensures lease != null ==> Holds(lease) == w.heap[w.byUser[user]]
  {
    s.TableIs();
    lease := s.LookupByUser(user);
    assert user in ViewOfTable(s).leases <==> user in ViewOf(w).leases;
  }

  method Migrate(s: SessionManager, ghost w: World, user: string, uid: u32, now: int) returns (lease: Lease?)
    requires s.Valid() && Keyed(w) && Mirrors(s, w)
    modifies s`byUid, s.byUser.Values
    ensures s.Valid() && Mirrors(s, DoMigrate(w, user, uid))
  {
    s.TableIs();
    s.EachUnderItsName();
    hide SessionManager.Coherent, SessionManager.Table, SessionManager.NoClash, SessionManager.Valid;
    MigrateMovesView(w, user, uid);
    ghost var table, byUid := s.Table(), s.byUid;
    if user in s.byUser {
      assert user in Untimed(table) && Untimed(table)[user].uid == s.byUser[user].uniqueId;
      NamesGain(byUid, {s.byUser[user].uniqueId}, uid, s.byUser[user]);
      UntimedUpdate(table, user, table[user].(uid := uid, acquired := now));
    } else {
      assert user !in Untimed(table);
    }
    hide ViewOf, DoMigrate, Keyed, Untimed, NamesIn;
    lease := s.Migrate(user, uid, now);
  }

  method Unbind(s: SessionManager, ghost w: World, uid: u32) returns (lease: Lease?)
    requires s.Valid() && Keyed(w) && Mirrors(s, w)
    modifies s
    ensures s.Valid() && Mirrors(s, DoUnbind(w, uid))
    ensures lease == null <==> uid !in w.byUid
    ensures lease != null ==> Holds(lease) == w.heap[w.byUid[uid]]
  {
    hide SessionManager.Coherent, SessionManager.Table, SessionManager.NoClash, SessionManager.Valid;
    UnbindMovesView(w, uid);
    UidFindsLease(w, uid);
    ghost var table, byUid := s.Table(), s.byUid;
    assert uid in byUid <==> uid in NamesIn(byUid);
    lease := s.Unbind(uid);
    if lease != null {
      NamesLose(byUid, {uid});
      UntimedLoses(table, lease.username);
      assert Untimed(table)[lease.username] == Holds(lease);
    }
    hide ViewOf, DoUnbind, Keyed;
  }

  lemma UidFindsLease(w: World, uid: u32)
    requires Keyed(w)
    ensures uid in w.byUid <==> uid in ViewOf(w).uids
    ensures uid in w.byUid ==>
              var v := ViewOf(w);
              v.uids[uid] in v.leases && v.leases[v.uids[uid]] == w.heap[w.byUid[uid]]
  {
  }

  method Bind(s: SessionManager, ghost w: World, user: string, uid: u32, ip: Host, fixed: bool, now: int)
    returns (lease: Lease)
    requires s.Valid() && Keyed(w) && Mirrors(s, w)
    modifies s, s.byUser.Values
    ensures s.Valid() && Mirrors(s, DoBind(w, user, uid, ip, fixed))
  {
    s.TableIs();
    s.EachUnderItsName();
    hide SessionManager.Coherent, SessionManager.Table, SessionManager.NoClash, SessionManager.Valid;
    BindMovesView(w, user, uid, ip, fixed);
    ghost var table, byUid := s.Table(), s.byUid;
    ghost var freed := if user in s.byUser then byUid - {s.byUser[user].uniqueId} else byUid;
    assert freed == if user in table then byUid - {table[user].uid} else byUid;
    hide ViewOf, DoBind, Keyed, Untimed, NamesIn, Bound;
    lease := s.BindLease(user, uid, ip, fixed, now);
    BoundTables(table, byUid, freed, user, lease, LeaseRec(uid, ip, fixed, now));
  }

  lemma BoundTables(table: map<string, LeaseRec>, byUid: map<u32, Lease>, freed: map<u32, Lease>,
                    user: string, lease: Lease, r: LeaseRec)
    requires freed == if user in table then byUid - {table[user].uid} else byUid
    requires lease.username == user
    ensures View(Untimed(table[user := r]), NamesIn(freed[r.uid := lease]))
         == Bound(View(Untimed(table), NamesIn(byUid)), user, r.uid, r.ip, r.fixed)
  {
    UntimedUpdate(table, user, r);
    NamesGain(freed, {}, r.uid, lease);
    assert freed - {} == freed && NamesIn(freed) - {} == NamesIn(freed);
    FreedNames(table, byUid, user, freed);
    hide Untimed, NamesIn;
  }

  lemma FreedNames(table: map<string, LeaseRec>, byUid: map<u32, Lease>, user: string, freed: map<u32, Lease>)
    requires freed == if user in table then byUid - {table[user].uid} else byUid
    ensures user in Untimed(table) <==> user in table
    ensures NamesIn(freed) == if user in table then NamesIn(byUid) - {Untimed(table)[user].uid} else NamesIn(byUid)
  {
  }

  // ---- the pool ----

  /** The marked numbers are the taken hosts, all of them of the interval. */
  ghost predicate Marks(r: Range, marked: set<int>, busy: set<Host>) {
    && (forall v: u32 | r.lo <= v <= r.hi :: v in marked <==> U32ToHost(v) in busy)
    && (forall ip | ip in busy :: InRange(r, ip))
  }

  lemma MarkedMore(r: Range, marked: set<int>, busy: set<Host>, v: u32)
    requires Marks(r, marked, busy) && r.lo <= v <= r.hi
    ensures Marks(r, marked + {v}, busy + {U32ToHost(v)})
  {
    U32RoundTrip(v);
    hide U32ToHost, HostToU32;
    forall x: u32 ensures U32ToHost(x) == U32ToHost(v) <==> x == v {
      U32ToHostInjective(x, v);
    }
  }

  lemma MarkedLess(r: Range, marked: set<int>, busy: set<Host>, ip: Host)
    requires Marks(r, marked, busy) && ip in busy
    ensures Marks(r, marked - {HostToU32(ip)}, busy - {ip}) && ip.family == Inet
  {
    var v := HostToU32(ip);
    assert ip == U32ToHost(v) && ip.family == Inet;
    hide U32ToHost, HostToU32;
    forall x: u32 ensures U32ToHost(x) == U32ToHost(v) <==> x == v {
      U32ToHostInjective(x, v);
    }
  }

  lemma LeastIsChoice(c: Config, marked: set<int>, busy: set<Host>, v: u32)
    requires c.pool.Some? && c.pool.value.lo <= v <= c.pool.value.hi && Marks(c.pool.value, marked, busy)
    requires v !in marked && forall x | c.pool.value.lo <= x < v :: x in marked
    ensures PoolChoice(c, busy) == Some(U32ToHost(v))
  {
    hide U32ToHost, HostToU32;
    FirstFreeIs(c.pool.value.lo, c.pool.value.hi, busy);
    var choice := FirstFree(c.pool.value.lo, c.pool.value.hi, busy);
    assert U32ToHost(v) !in busy;
    assert choice.Some? && HostToU32(choice.value) !in marked;
  }

  lemma AllMarkedIsNone(c: Config, marked: set<int>, busy: set<Host>)
    requires c.pool.Some? && Marks(c.pool.value, marked, busy)
    requires forall x | c.pool.value.lo <= x <= c.pool.value.hi :: x in marked
    ensures PoolChoice(c, busy) == None
  {
    hide U32ToHost, HostToU32;
    if c.pool.value.lo <= c.pool.value.hi {
      FirstFreeIs(c.pool.value.lo, c.pool.value.hi, busy);
    }
  }

  /** The set bits of the pool are the set bits of the model. */
  ghost predicate PoolMirrors(pool: DynamicPool, busy: set<Host>)
    reads pool, pool.bits
  {
    pool.capacity <= 8 * pool.bits.Length && Marks(Range(pool.startH, pool.endH), pool.Busy(), busy)
  }

  method TakeAddress(pool: DynamicPool, ghost c: Config, ghost busy: set<Host>) returns (ip: Option<Host>)
    requires pool.Valid() && PoolMirrors(pool, busy) && c.pool == Some(Range(pool.startH, pool.endH))
    modifies pool, pool.bits
    ensures pool.Valid() && ip == PoolChoice(c, busy)
    ensures PoolMirrors(pool, if ip.None? then busy else busy + {ip.value})
  {
    hide Marks, PoolChoice, U32ToHost, DynamicPool.Busy, PaddingClear;
    ghost var marked := pool.Busy();
    ghost var v;
    ip, v := pool.Acquire();
    if ip.None? {
      AllMarkedIsNone(c, marked, busy);
    } else {
      LeastIsChoice(c, marked, busy, v);
      MarkedMore(c.pool.value, marked, busy, v);
    }
  }

  method GiveAddress(pool: DynamicPool, ghost busy: set<Host>, ip: Host)
    requires pool.Valid() && PoolMirrors(pool, busy) && ip in busy
    modifies pool, pool.bits
    ensures pool.Valid() && PoolMirrors(pool, busy - {ip})
  {
    hide Marks, HostToU32, DynamicPool.Busy, PaddingClear;
    MarkedLess(Range(pool.startH, pool.endH), pool.Busy(), busy, ip);
    pool.Release(Some(ip));
  }
}
