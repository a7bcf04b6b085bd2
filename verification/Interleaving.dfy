/** Any number of threads inside acquire and release, interleaved at the granularity of the locks:
    `lock` of the allocator spans an acquire but not the whole of a release, while the pool and the
    lease table each lock only the single call.  A step is what happens between two such points. */
module Interleaving {
  import opened Hosts
  import opened YamlParser
  import opened AllocatorSpec

  type Tid = nat
  type Lid = nat

  datatype HeapLease = HeapLease(user: string, uid: u32, ip: Host, fixed: bool)

  /** Where a thread is. */
  datatype Pc =
    | Idle
    | AcqWait(uid: u32)                            // about to take lock
    | AcqLookup(uid: u32)                          // lock held from here on
    | AcqMigrate(uid: u32, lid: Lid)
    | AcqReuse(uid: u32, lid: Lid)                 // about to clone the address, unlock and return
    | AcqPolicy(uid: u32)
    | AcqPool(uid: u32, asked: Policy)             // the policy asked had no address for the name
    | AcqBind(uid: u32, ip: Host, fixed: bool)     // owns an address
    | AcqClone(uid: u32, lid: Lid)                 // about to clone the address, unlock and return
    | AcqNone                                      // about to unlock and return nothing
    | RelWait(uid: u32)                            // about to take lock
    | RelUnbind(uid: u32)                          // lock held
    | RelUnlock(found: Option<Lid>)                // about to unlock
    | RelPool(lid: Lid)                            // lock free, the lease unbound, its bit still set
    | RelDestroy(lid: Lid)                         // bit cleared

  /** `heap` holds the leases that exist, `next` the identity of the next one.  `fault` records that a
      lease was touched or destroyed after its destruction, or a lock released by a stranger. */
  datatype World = World(lock: Option<Tid>, pcs: map<Tid, Pc>, heap: map<Lid, HeapLease>, next: Lid,
                         byUid: map<u32, Lid>, byUser: map<string, Lid>, busy: set<Host>, policy: Policy, fault: bool)

  datatype Action =
    | CallAcquire(t: Tid, uid: u32)
    | CallRelease(t: Tid, uid: u32)
    | Go(t: Tid, cloneOk: bool)
    | ReloadTo(policy: Policy)

  /** Each uid belongs to one SA, whose name is fixed. */
  type Names = u32 -> string

  function Goto(w: World, t: Tid, pc: Pc): World {
    w.(pcs := w.pcs[t := pc])
  }

  function Unlock(w: World, t: Tid, pc: Pc): World {
    if w.lock != Some(t) then w.(fault := true) else Goto(w, t, pc).(lock := None)
  }

  /** `migrate` looks the lease up again by name. */
  function DoMigrate(w: World, user: string, uid: u32): World {
    if user !in w.byUser then w
    else
      var l := w.byUser[user];
      if l !in w.heap then w.(fault := true)
      else w.(byUid := (w.byUid - {w.heap[l].uid})[uid := l], heap := w.heap[l := w.heap[l].(uid := uid)])
  }

  /** The overwrite branch of `bind_lease`. */
  function DoEvict(w: World, user: string): World {
    if user !in w.byUser then w
    else
      var l := w.byUser[user];
      if l !in w.heap then w.(fault := true)
      else w.(byUid := w.byUid - {w.heap[l].uid}, byUser := w.byUser - {w.heap[l].user}, heap := w.heap - {l})
  }

  function DoBind(w: World, user: string, uid: u32, ip: Host, fixed: bool): World {
    var v := DoEvict(w, user);
    v.(heap := v.heap[v.next := HeapLease(user, uid, ip, fixed)], next := v.next + 1,
       byUid := v.byUid[uid := v.next], byUser := v.byUser[user := v.next])
  }

  function DoUnbind(w: World, uid: u32): World {
    if uid !in w.byUid then w
    else
      var l := w.byUid[uid];
      if l !in w.heap then w.(fault := true)
      else w.(byUid := w.byUid - {uid}, byUser := w.byUser - {w.heap[l].user})
  }

  /** The address the pool hands out. */
  function PoolChoice(c: Config, busy: set<Host>): Option<Host> {
    if c.pool.None? || c.pool.value.lo > c.pool.value.hi then None
    else FirstFree(c.pool.value.lo, c.pool.value.hi, busy)
  }

  /** The steps that touch neither the leases nor the pool. */
  predicate IsMove(pc: Pc) {
    !(pc.AcqMigrate? || pc.AcqPool? || pc.AcqBind? || pc.RelUnbind? || pc.RelPool? || pc.RelDestroy?)
  }

  predicate Locks(pc: Pc) {
    pc.AcqWait? || pc.RelWait?
  }

  predicate Unlocks(pc: Pc) {
    pc.AcqReuse? || pc.AcqClone? || pc.AcqNone? || pc.RelUnlock?
  }

  /** Where such a step leads. */
  function Next(names: Names, w: World, pc: Pc, cloneOk: bool): Pc {
    match pc
    case AcqWait(uid) => AcqLookup(uid)
    case AcqLookup(uid) => if names(uid) in w.byUser then AcqMigrate(uid, w.byUser[names(uid)]) else AcqPolicy(uid)
    case AcqReuse(_, _) => Idle
    case AcqPolicy(uid) =>
      if Served(w.policy, names(uid)) then AcqBind(uid, w.policy.users[names(uid)], true) else AcqPool(uid, w.policy)
    case AcqClone(uid, _) => if cloneOk then Idle else RelWait(uid)
    case AcqNone => Idle
    case RelWait(uid) => RelUnbind(uid)
    case RelUnlock(found) => if found.Some? then RelPool(found.value) else Idle
    case _ => pc
  }

  function Move(names: Names, w: World, t: Tid, cloneOk: bool): World
    requires t in w.pcs
  {
    var pc := w.pcs[t];
    var next := Next(names, w, pc, cloneOk);
    if Locks(pc) then (if w.lock.Some? then w else Goto(w, t, next).(lock := Some(t)))
    else if (pc.AcqReuse? || pc.AcqClone?) && pc.lid !in w.heap then w.(fault := true)
    else if Unlocks(pc) then Unlock(w, t, next)
    else Goto(w, t, next)
  }

  /** One step of a thread. */
  function Advance(c: Config, names: Names, w: World, t: Tid, cloneOk: bool): World
    requires t in w.pcs
  {
    match w.pcs[t]
    case AcqMigrate(uid, lid) => Goto(DoMigrate(w, names(uid), uid), t, AcqReuse(uid, lid))
    case AcqPool(uid, _) =>
      (match PoolChoice(c, w.busy)
       case None => Goto(w, t, AcqNone)
       case Some(ip) => Goto(w, t, AcqBind(uid, ip, false)).(busy := w.busy + {ip}))
    case AcqBind(uid, ip, fixed) =>
      var v := DoBind(w, names(uid), uid, ip, fixed);
      Goto(v, t, AcqClone(uid, v.byUser[names(uid)]))
    case RelUnbind(uid) =>
      Goto(DoUnbind(w, uid), t, RelUnlock(if uid in w.byUid then Some(w.byUid[uid]) else None))
    case RelPool(lid) =>
      if lid !in w.heap then w.(fault := true)
      else Goto(w, t, RelDestroy(lid)).(busy := if w.heap[lid].fixed then w.busy else w.busy - {w.heap[lid].ip})
    case RelDestroy(lid) =>
      if lid !in w.heap then w.(fault := true) else Goto(w, t, Idle).(heap := w.heap - {lid})
    case _ => Move(names, w, t, cloneOk)
  }

  /** An action that is not possible now does nothing. */
  function Act(c: Config, names: Names, w: World, a: Action): World {
    match a
    case CallAcquire(t, uid) => if t in w.pcs && w.pcs[t].Idle? then Goto(w, t, AcqWait(uid)) else w
    case CallRelease(t, uid) => if t in w.pcs && w.pcs[t].Idle? then Goto(w, t, RelWait(uid)) else w
    case Go(t, cloneOk) => if t in w.pcs then Advance(c, names, w, t, cloneOk) else w
    case ReloadTo(p) => w.(policy := p)
  }

  function Interleave(c: Config, names: Names, w: World, actions: seq<Action>): World
    decreases |actions|
  {
    if actions == [] then w else Interleave(c, names, Act(c, names, w, actions[0]), actions[1..])
  }

  /** Nothing allocated, no thread inside. */
  predicate Init(w: World) {
    && w.lock.None? && (forall t | t in w.pcs :: w.pcs[t].Idle?)
    && w.heap == map[] && w.byUid == map[] && w.byUser == map[] && w.busy == {} && !w.fault
  }

  // ---- the invariant ----

  predicate Holding(pc: Pc) {
    !(pc.Idle? || pc.AcqWait? || pc.RelWait? || pc.RelPool? || pc.RelDestroy?)
  }

  ghost predicate LockOk(w: World) {
    && (w.lock.Some? ==> w.lock.value in w.pcs)
    && forall t | t in w.pcs :: Holding(w.pcs[t]) <==> w.lock == Some(t)
  }

  predicate InTable(w: World, l: Lid)
    requires l in w.heap
  {
    w.heap[l].user in w.byUser && w.byUser[w.heap[l].user] == l
  }

  ghost predicate TablesOk(names: Names, w: World) {
    && (forall u | u in w.byUser ::
          && w.byUser[u] in w.heap && w.heap[w.byUser[u]].user == u
          && w.heap[w.byUser[u]].uid in w.byUid && w.byUid[w.heap[w.byUser[u]].uid] == w.byUser[u])
    && (forall k | k in w.byUid :: w.byUid[k] in w.heap && w.heap[w.byUid[k]].uid == k && InTable(w, w.byUid[k]))
    && (forall l | l in w.heap :: l < w.next && names(w.heap[l].uid) == w.heap[l].user)
  }

  /** The unbound lease a releasing thread carries. */
  function Carries(pc: Pc): Option<Lid> {
    match pc
    case RelUnlock(found) => found
    case RelPool(lid) => Some(lid)
    case RelDestroy(lid) => Some(lid)
    case _ => None
  }

  ghost predicate Carried(w: World, l: Lid) {
    exists t :: t in w.pcs && Carries(w.pcs[t]) == Some(l)
  }

  /** Every existing lease is in the table or carried by a thread, never both, never by two. */
  ghost predicate OwnersOk(w: World) {
    && (forall t | t in w.pcs && Carries(w.pcs[t]).Some? ::
          Carries(w.pcs[t]).value in w.heap && !InTable(w, Carries(w.pcs[t]).value))
    && (forall s, t | s in w.pcs && t in w.pcs && s != t && Carries(w.pcs[s]).Some? ::
         Carries(w.pcs[s]) != Carries(w.pcs[t]))
    && (forall l | l in w.heap :: InTable(w, l) || Carried(w, l))
  }

  /** The lease is in the table under the name and the uid. */
  predicate InHand(names: Names, w: World, uid: u32, lid: Lid) {
    names(uid) in w.byUser && w.byUser[names(uid)] == lid && lid in w.heap && w.heap[lid].uid == uid
  }

  /** What an acquiring thread found in the table stays true until it unlocks. */
  ghost predicate AcquireOk(names: Names, w: World, pc: Pc) {
    match pc
    case AcqMigrate(uid, lid) => names(uid) in w.byUser && w.byUser[names(uid)] == lid
    case AcqReuse(uid, lid) => InHand(names, w, uid, lid)
    case AcqClone(uid, lid) => InHand(names, w, uid, lid)
    case AcqPolicy(uid) => names(uid) !in w.byUser
    case AcqPool(uid, asked) => names(uid) !in w.byUser && !Served(asked, names(uid))
    case AcqBind(uid, _, _) => names(uid) !in w.byUser
    case _ => true
  }

  ghost predicate AcquiresOk(names: Names, w: World) {
    forall t | t in w.pcs :: AcquireOk(names, w, w.pcs[t])
  }

  /** Who can be the reason for a set bit: a live dynamic lease, an acquire between the pool and
      the table, a release between the table and the pool. */
  datatype Holder = OfLease(lid: Lid) | OfAcquire(t: Tid) | OfRelease(t: Tid)

  function Holds(w: World, h: Holder): Option<Host> {
    match h
    case OfLease(l) => if l in w.heap && InTable(w, l) && !w.heap[l].fixed then Some(w.heap[l].ip) else None
    case OfAcquire(t) =>
      if t in w.pcs && w.pcs[t].AcqBind? && !w.pcs[t].fixed then Some(w.pcs[t].ip) else None
    case OfRelease(t) =>
      if t in w.pcs && !w.pcs[t].RelDestroy? && Carries(w.pcs[t]).Some? && Carries(w.pcs[t]).value in w.heap
         && !w.heap[Carries(w.pcs[t]).value].fixed
      then Some(w.heap[Carries(w.pcs[t]).value].ip) else None
  }

  /** The set bits are exactly the disjoint union of what the holders hold, all of it in the pool. */
  ghost predicate BitsOk(c: Config, w: World) {
    && (forall h | Holds(w, h).Some? :: Holds(w, h).value in w.busy && InPool(c, Holds(w, h).value))
    && (forall ip | ip in w.busy :: exists h :: Holds(w, h) == Some(ip))
    && (forall g, h | g != h && Holds(w, g).Some? :: Holds(w, g) != Holds(w, h))
  }

  ghost predicate Inv(c: Config, names: Names, w: World) {
    && !w.fault && LockOk(w) && TablesOk(names, w) && OwnersOk(w) && AcquiresOk(names, w) && BitsOk(c, w)
  }

  lemma InitInv(c: Config, names: Names, w: World)
    requires Init(w)
    ensures Inv(c, names, w)
  {
  }

  // ---- every step keeps it ----

  /** Nothing changes about who carries which lease and which leases are in the table. */
  ghost predicate SameOwners(w: World, v: World) {
    && v.pcs.Keys == w.pcs.Keys && v.heap.Keys == w.heap.Keys
    && (forall t | t in w.pcs :: Carries(v.pcs[t]) == Carries(w.pcs[t]))
    && (forall l | l in w.heap :: InTable(v, l) == InTable(w, l))
  }

  lemma SameOwnersOk(w: World, v: World)
    requires OwnersOk(w) && SameOwners(w, v)
    ensures OwnersOk(v)
  {
    hide Carries, InTable;
    forall l | l in v.heap ensures InTable(v, l) || Carried(v, l) {
      if !InTable(v, l) {
        var s :| s in w.pcs && Carries(w.pcs[s]) == Some(l);
        assert s in v.pcs && Carries(v.pcs[s]) == Some(l);
      }
    }
  }

  lemma SameHoldsSameBits(c: Config, w: World, v: World)
    requires BitsOk(c, w) && v.busy == w.busy
    requires forall h :: Holds(v, h) == Holds(w, h)
    ensures BitsOk(c, v)
  {
    hide Holds, InPool;
    forall ip | ip in v.busy ensures exists h :: Holds(v, h) == Some(ip) {
      var h :| Holds(w, h) == Some(ip);
      assert Holds(v, h) == Some(ip);
    }
  }

  /** The leases hold the same addresses and are in the table or not as before. */
  ghost predicate SameContents(w: World, v: World) {
    && v.heap.Keys == w.heap.Keys
    && forall l | l in w.heap ::
         v.heap[l].ip == w.heap[l].ip && v.heap[l].fixed == w.heap[l].fixed && InTable(v, l) == InTable(w, l)
  }

  lemma OthersHold(w: World, v: World, t: Tid, h: Holder)
    requires SameContents(w, v) && t in v.pcs && v.pcs == w.pcs[t := v.pcs[t]]
    requires h != OfAcquire(t) && h != OfRelease(t)
    ensures Holds(v, h) == Holds(w, h)
  {
  }

  lemma AllOthersHold(w: World, v: World, t: Tid)
    requires SameContents(w, v) && t in v.pcs && v.pcs == w.pcs[t := v.pcs[t]]
    ensures forall h | h != OfAcquire(t) && h != OfRelease(t) :: Holds(v, h) == Holds(w, h)
  {
    hide Holds;
    forall h | h != OfAcquire(t) && h != OfRelease(t) ensures Holds(v, h) == Holds(w, h) {
      OthersHold(w, v, t, h);
    }
  }

  lemma SameTablesOk(names: Names, w: World, v: World)
    requires TablesOk(names, w)
    requires v.byUid == w.byUid && v.byUser == w.byUser && v.heap == w.heap && v.next == w.next
    ensures TablesOk(names, v) && SameContents(w, v)
  {
  }

  lemma SameLockOk(w: World, v: World, t: Tid)
    requires LockOk(w) && t in w.pcs && t in v.pcs && v.pcs == w.pcs[t := v.pcs[t]]
    requires v.lock == w.lock && Holding(v.pcs[t]) == Holding(w.pcs[t])
    ensures LockOk(v) && (Holding(v.pcs[t]) ==> v.lock == Some(t))
  {
  }

  /** Only the holder of the lock relies on the table. */
  lemma HolderAcquiresOk(names: Names, v: World, t: Tid)
    requires LockOk(v) && v.lock == Some(t) && AcquireOk(names, v, v.pcs[t])
    ensures AcquiresOk(names, v)
  {
    forall s | s in v.pcs ensures AcquireOk(names, v, v.pcs[s]) {
      assert s != t ==> !Holding(v.pcs[s]);
    }
  }

  lemma OthersAcquiresOk(names: Names, w: World, v: World, t: Tid)
    requires AcquiresOk(names, w) && v.byUser == w.byUser
    requires forall u | u in w.byUser && w.byUser[u] in w.heap ::
        w.byUser[u] in v.heap && v.heap[w.byUser[u]] == w.heap[w.byUser[u]]
    requires t in w.pcs && t in v.pcs && v.pcs == w.pcs[t := v.pcs[t]] && AcquireOk(names, v, v.pcs[t])
    ensures AcquiresOk(names, v)
  {
    forall s | s in v.pcs ensures AcquireOk(names, v, v.pcs[s]) {
      assert s != t ==> AcquireOk(names, w, w.pcs[s]);
    }
  }

  /** The step only moves a thread, perhaps taking or giving up the lock. */
  ghost predicate OnlyMoves(w: World, v: World, t: Tid) {
    && t in w.pcs && t in v.pcs && v == w.(pcs := w.pcs[t := v.pcs[t]], lock := v.lock, policy := v.policy)
    && Carries(v.pcs[t]) == Carries(w.pcs[t]) && NotInHand(v.pcs[t]) && NotInHand(w.pcs[t])
  }

  /** The thread neither owns an address of the pool nor has just given one back. */
  predicate NotInHand(pc: Pc) {
    !(pc.AcqBind? && !pc.fixed) && !pc.RelDestroy?
  }

  lemma OnlyMovesHolds(w: World, v: World, t: Tid)
    requires OnlyMoves(w, v, t)
    ensures SameContents(w, v) ==> forall h :: Holds(v, h) == Holds(w, h)
    ensures Holds(v, OfAcquire(t)) == Holds(w, OfAcquire(t)) && Holds(v, OfRelease(t)) == Holds(w, OfRelease(t))
  {
    if SameContents(w, v) {
      AllOthersHold(w, v, t);
    }
  }

  lemma MoveKeepsInv(c: Config, names: Names, w: World, v: World, t: Tid)
    requires Inv(c, names, w) && OnlyMoves(w, v, t)
    requires LockOk(v) && AcquireOk(names, v, v.pcs[t])
    ensures Inv(c, names, v)
  {
    hide TablesOk, LockOk, OwnersOk, BitsOk;
    SameTablesOk(names, w, v);
    SameOwnersOk(w, v);
    OthersAcquiresOk(names, w, v, t);
    OnlyMovesHolds(w, v, t);
    SameHoldsSameBits(c, w, v);
  }

  /** The lease an acquiring thread has in hand exists as long as the thread holds the lock. */
  lemma FoundIsLive(names: Names, w: World, pc: Pc)
    requires TablesOk(names, w) && AcquireOk(names, w, pc)
    ensures pc.AcqMigrate? || pc.AcqReuse? || pc.AcqClone? ==> pc.lid in w.heap
  {
  }

  /** A move neither picks up nor puts down a lease or an address of the pool. */
  lemma NextIsEmptyHanded(names: Names, w: World, pc: Pc, cloneOk: bool)
    requires IsMove(pc)
    ensures var next := Next(names, w, pc, cloneOk);
            Carries(next) == Carries(pc) && NotInHand(next) && NotInHand(pc)
  {
    hide Served;
  }

  lemma NextHolds(names: Names, w: World, pc: Pc, cloneOk: bool)
    requires IsMove(pc) && !pc.Idle?
    ensures Holding(Next(names, w, pc, cloneOk)) <==> !Unlocks(pc)
    ensures Holding(pc) <==> !Locks(pc)
  {
    hide Served;
  }

  /** What a thread knows after a move, it knew before or has just found. */
  lemma NextKnows(names: Names, w: World, pc: Pc, cloneOk: bool)
    requires TablesOk(names, w) && IsMove(pc) && AcquireOk(names, w, pc)
    ensures AcquireOk(names, w, Next(names, w, pc, cloneOk))
  {
    hide TablesOk, Served;
  }

  /** Only consulting the policy ends with an address in hand or leads to the pool. */
  lemma NextOfPolicy(names: Names, w: World, pc: Pc, cloneOk: bool)
    requires IsMove(pc)
    ensures var next := Next(names, w, pc, cloneOk);
            && (next.AcqBind? ==> pc.AcqPolicy? && Served(w.policy, names(pc.uid)))
            && (next.AcqPool? ==> pc.AcqPolicy? && next.asked == w.policy)
  {
    hide Served;
  }

  /** A thread that may move either waits or arrives where the move leads. */
  lemma MoveArrives(names: Names, w: World, t: Tid, cloneOk: bool)
    requires LockOk(w) && TablesOk(names, w) && t in w.pcs && IsMove(w.pcs[t]) && AcquireOk(names, w, w.pcs[t])
    ensures var pc, v := w.pcs[t], Move(names, w, t, cloneOk);
            v == w || v == w.(pcs := w.pcs[t := Next(names, w, pc, cloneOk)],
                              lock := if Locks(pc) then Some(t) else if Unlocks(pc) then None else w.lock)
    ensures Locks(w.pcs[t]) && Move(names, w, t, cloneOk) != w ==> w.lock.None?
  {
    FoundIsLive(names, w, w.pcs[t]);
    assert Unlocks(w.pcs[t]) ==> Holding(w.pcs[t]);
    hide Next, TablesOk;
  }

  lemma MovesOnlyMove(names: Names, w: World, t: Tid, cloneOk: bool)
    requires LockOk(w) && TablesOk(names, w) && t in w.pcs && IsMove(w.pcs[t]) && AcquireOk(names, w, w.pcs[t])
    ensures var v := Move(names, w, t, cloneOk);
            v == w || (OnlyMoves(w, v, t) && v.policy == w.policy && v.pcs[t] == Next(names, w, w.pcs[t], cloneOk))
  {
    NextIsEmptyHanded(names, w, w.pcs[t], cloneOk);
    MoveArrives(names, w, t, cloneOk);
    hide Move, Next, TablesOk, LockOk, AcquireOk, NotInHand, Carries;
  }

  lemma MovesKeepLock(names: Names, w: World, t: Tid, cloneOk: bool)
    requires LockOk(w) && TablesOk(names, w) && t in w.pcs && IsMove(w.pcs[t]) && AcquireOk(names, w, w.pcs[t])
    ensures LockOk(Move(names, w, t, cloneOk))
  {
    if !w.pcs[t].Idle? {
      NextHolds(names, w, w.pcs[t], cloneOk);
      MoveArrives(names, w, t, cloneOk);
      hide Move, Next, TablesOk, AcquireOk, Holding;
    }
  }

  lemma AdvanceMoves(c: Config, names: Names, w: World, t: Tid, cloneOk: bool)
    requires t in w.pcs && IsMove(w.pcs[t])
    ensures Advance(c, names, w, t, cloneOk) == Move(names, w, t, cloneOk)
  {
    hide Move, PoolChoice, DoMigrate, DoBind, DoUnbind;
  }

  lemma MovesKeepInv(c: Config, names: Names, w: World, t: Tid, cloneOk: bool)
    requires Inv(c, names, w) && t in w.pcs && IsMove(w.pcs[t])
    ensures Inv(c, names, Advance(c, names, w, t, cloneOk))
  {
    hide BitsOk, OwnersOk, TablesOk, LockOk, Advance, Move, Next;
    assert AcquireOk(names, w, w.pcs[t]);
    AdvanceMoves(c, names, w, t, cloneOk);
    MovesOnlyMove(names, w, t, cloneOk);
    MovesKeepLock(names, w, t, cloneOk);
    NextKnows(names, w, w.pcs[t], cloneOk);
    var v := Advance(c, names, w, t, cloneOk);
    if v != w {
      SameKnowledge(names, w, v, v.pcs[t]);
      MoveKeepsInv(c, names, w, v, t);
    }
  }

  lemma SameKnowledge(names: Names, w: World, v: World, pc: Pc)
    requires AcquireOk(names, w, pc) && v.byUser == w.byUser && v.heap == w.heap
    ensures AcquireOk(names, v, pc)
  {
  }

  // ---- migrate ----

  lemma MigrateTables(names: Names, w: World, user: string, uid: u32)
    requires TablesOk(names, w) && names(uid) == user && user in w.byUser
    ensures var v := DoMigrate(w, user, uid);
            && v == w.(byUid := v.byUid, heap := v.heap)
            && SameContents(w, v) && TablesOk(names, v) && v.heap[w.byUser[user]].uid == uid
  {
    assert uid in w.byUid ==> w.byUid[uid] == w.byUser[user];
  }

  /** One lease has a new uid, and the table agrees. */
  ghost predicate Migrated(names: Names, w: World, v: World, t: Tid)
    requires t in w.pcs && w.pcs[t].AcqMigrate?
  {
    var uid, lid := w.pcs[t].uid, w.pcs[t].lid;
    && names(uid) in w.byUser && w.byUser[names(uid)] == lid && lid in w.heap
    && SameContents(w, v) && TablesOk(names, v)
    && v == w.(pcs := w.pcs[t := AcqReuse(uid, lid)], byUid := v.byUid,
               heap := w.heap[lid := w.heap[lid].(uid := uid)])
  }

  lemma MigrateStep(c: Config, names: Names, w: World, t: Tid)
    requires Inv(c, names, w) && t in w.pcs && w.pcs[t].AcqMigrate?
    ensures Migrated(names, w, Advance(c, names, w, t, true), t)
  {
    hide BitsOk, OwnersOk, LockOk;
    var uid := w.pcs[t].uid;
    assert AcquireOk(names, w, w.pcs[t]);
    MigrateTables(names, w, names(uid), uid);
  }

  lemma MigrateKeepsInv(c: Config, names: Names, w: World, t: Tid)
    requires Inv(c, names, w) && t in w.pcs && w.pcs[t].AcqMigrate?
    ensures Inv(c, names, Advance(c, names, w, t, true))
  {
    hide Advance, BitsOk, OwnersOk, LockOk, TablesOk, InTable;
    MigrateStep(c, names, w, t);
    var v := Advance(c, names, w, t, true);
    SameLockOk(w, v, t);
    SameOwnersOk(w, v);
    HolderAcquiresOk(names, v, t);
    AllOthersHold(w, v, t);
    SameHoldsSameBits(c, w, v);
  }

  // ---- the pool hands out an address ----

  lemma PoolChoiceIsFree(c: Config, busy: set<Host>)
    requires PoolChoice(c, busy).Some?
    ensures PoolChoice(c, busy).value !in busy && InPool(c, PoolChoice(c, busy).value)
  {
    FirstFreeIs(c.pool.value.lo, c.pool.value.hi, busy);
  }

  /** The thread has an address nobody held, or the pool has none. */
  ghost predicate Pooled(c: Config, w: World, v: World, t: Tid)
    requires t in w.pcs && w.pcs[t].AcqPool?
  {
    match PoolChoice(c, w.busy)
    case None => v == w.(pcs := w.pcs[t := AcqNone])
    case Some(ip) =>
      && ip !in w.busy && InPool(c, ip)
      && v == w.(pcs := w.pcs[t := AcqBind(w.pcs[t].uid, ip, false)], busy := w.busy + {ip})
  }

  lemma PoolStep(c: Config, names: Names, w: World, t: Tid)
    requires t in w.pcs && w.pcs[t].AcqPool?
    ensures Pooled(c, w, Advance(c, names, w, t, true), t)
  {
    if PoolChoice(c, w.busy).Some? {
      PoolChoiceIsFree(c, w.busy);
    }
    hide PoolChoice, InPool;
  }

  lemma PoolKeepsInv(c: Config, names: Names, w: World, t: Tid)
    requires Inv(c, names, w) && t in w.pcs && w.pcs[t].AcqPool?
    ensures Inv(c, names, Advance(c, names, w, t, true))
  {
    hide Advance, PoolChoice, Served, BitsOk, OwnersOk, InPool, LockOk, TablesOk;
    PoolStep(c, names, w, t);
    var v := Advance(c, names, w, t, true);
    assert AcquireOk(names, w, w.pcs[t]);
    SameTablesOk(names, w, v);
    SameLockOk(w, v, t);
    SameOwnersOk(w, v);
    HolderAcquiresOk(names, v, t);
    AllOthersHold(w, v, t);
    if PoolChoice(c, w.busy).None? {
      SameHoldsSameBits(c, w, v);
    } else {
      BitAdded(c, w, v, OfAcquire(t), PoolChoice(c, w.busy).value);
    }
  }

  /** A new holder of an address nobody held. */
  lemma BitAdded(c: Config, w: World, v: World, g: Holder, ip: Host)
    requires BitsOk(c, w) && v.busy == w.busy + {ip} && ip !in w.busy && InPool(c, ip)
    requires Holds(w, g).None? && Holds(v, g) == Some(ip)
    requires forall h | h != g :: Holds(v, h) == Holds(w, h)
    ensures BitsOk(c, v)
  {
    hide Holds, InPool;
    forall a | a in v.busy ensures exists h :: Holds(v, h) == Some(a) {
      if a == ip {
        assert Holds(v, g) == Some(a);
      } else {
        var h :| Holds(w, h) == Some(a);
        assert Holds(v, h) == Some(a);
      }
    }
  }

  /** One holder hands its address to another. */
  lemma BitHandedOver(c: Config, w: World, v: World, f: Holder, g: Holder)
    requires BitsOk(c, w) && v.busy == w.busy && f != g
    requires Holds(w, g).None? && Holds(v, f).None? && Holds(v, g) == Holds(w, f)
    requires forall h | h != f && h != g :: Holds(v, h) == Holds(w, h)
    ensures BitsOk(c, v)
  {
    hide Holds, InPool;
    forall a | a in v.busy ensures exists h :: Holds(v, h) == Some(a) {
      var h :| Holds(w, h) == Some(a);
      if h == f {
        assert Holds(v, g) == Some(a);
      } else {
        assert Holds(v, h) == Some(a);
      }
    }
  }

  /** A holder lets go of its address. */
  lemma BitRemoved(c: Config, w: World, v: World, f: Holder)
    requires BitsOk(c, w) && Holds(w, f).Some? && v.busy == w.busy - {Holds(w, f).value} && Holds(v, f).None?
    requires forall h | h != f :: Holds(v, h) == Holds(w, h)
    ensures BitsOk(c, v)
  {
    hide Holds, InPool;
    forall a | a in v.busy ensures exists h :: Holds(v, h) == Some(a) {
      var h :| Holds(w, h) == Some(a);
      assert Holds(v, h) == Some(a);
    }
  }

  // ---- bind ----

  /** The overwrite branch is not taken, the uid is free, and the identity of the lease is new. */
  lemma BindIsFresh(names: Names, w: World, t: Tid)
    requires TablesOk(names, w) && t in w.pcs && w.pcs[t].AcqBind? && AcquireOk(names, w, w.pcs[t])
    ensures var uid := w.pcs[t].uid;
            names(uid) !in w.byUser && uid !in w.byUid && w.next !in w.heap && DoEvict(w, names(uid)) == w
  {
  }

  /** The table with one more lease. */
  ghost predicate Bound(names: Names, w: World, v: World, t: Tid)
    requires t in w.pcs && w.pcs[t].AcqBind?
  {
    var pc := w.pcs[t];
    && names(pc.uid) !in w.byUser && pc.uid !in w.byUid && w.next !in w.heap
    && v == w.(pcs := w.pcs[t := AcqClone(pc.uid, w.next)], next := w.next + 1,
               heap := w.heap[w.next := HeapLease(names(pc.uid), pc.uid, pc.ip, pc.fixed)],
               byUid := w.byUid[pc.uid := w.next], byUser := w.byUser[names(pc.uid) := w.next])
  }

  lemma BoundTables(names: Names, w: World, v: World, t: Tid)
    requires TablesOk(names, w) && t in w.pcs && w.pcs[t].AcqBind? && Bound(names, w, v, t)
    ensures TablesOk(names, v) && InTable(v, w.next)
    ensures forall l | l in w.heap :: InTable(v, l) == InTable(w, l)
  {
  }

  lemma BoundOwners(names: Names, w: World, v: World, t: Tid)
    requires OwnersOk(w) && t in w.pcs && w.pcs[t].AcqBind? && Bound(names, w, v, t)
    requires forall l | l in w.heap :: InTable(v, l) == InTable(w, l)
    requires InTable(v, w.next)
    ensures OwnersOk(v)
  {
    assert forall s | s in w.pcs :: Carries(v.pcs[s]) == Carries(w.pcs[s]);
    hide InTable, Carries;
    forall l | l in v.heap ensures InTable(v, l) || Carried(v, l) {
      if l != w.next && !InTable(w, l) {
        var s :| s in w.pcs && Carries(w.pcs[s]) == Some(l);
        assert s in v.pcs && Carries(v.pcs[s]) == Some(l);
      }
    }
  }

  lemma BoundHolds(names: Names, w: World, v: World, t: Tid, h: Holder)
    requires OwnersOk(w) && t in w.pcs && w.pcs[t].AcqBind? && Bound(names, w, v, t)
    requires forall l | l in w.heap :: InTable(v, l) == InTable(w, l)
    requires h != OfAcquire(t) && h != OfLease(w.next)
    ensures Holds(v, h) == Holds(w, h)
  {
  }

  lemma BindStep(c: Config, names: Names, w: World, t: Tid)
    requires Inv(c, names, w) && t in w.pcs && w.pcs[t].AcqBind?
    ensures Bound(names, w, Advance(c, names, w, t, true), t)
  {
    hide BitsOk, OwnersOk, LockOk, TablesOk;
    assert AcquireOk(names, w, w.pcs[t]);
    BindIsFresh(names, w, t);
  }

  lemma BoundBits(c: Config, names: Names, w: World, v: World, t: Tid)
    requires OwnersOk(w) && BitsOk(c, w) && t in w.pcs && w.pcs[t].AcqBind? && Bound(names, w, v, t)
    requires forall l | l in w.heap :: InTable(v, l) == InTable(w, l)
    requires InTable(v, w.next)
    ensures BitsOk(c, v)
  {
    hide BitsOk, OwnersOk, InTable;
    var acq, lease := OfAcquire(t), OfLease(w.next);
    assert forall h | h != acq && h != lease :: Holds(v, h) == Holds(w, h) by {
      hide Holds;
      forall h | h != acq && h != lease ensures Holds(v, h) == Holds(w, h) { BoundHolds(names, w, v, t, h); }
    }
    if w.pcs[t].fixed {
      SameHoldsSameBits(c, w, v);
    } else {
      BitHandedOver(c, w, v, acq, lease);
    }
  }

  lemma BindKeepsInv(c: Config, names: Names, w: World, t: Tid)
    requires Inv(c, names, w) && t in w.pcs && w.pcs[t].AcqBind?
    ensures Inv(c, names, Advance(c, names, w, t, true))
  {
    hide Advance, BitsOk, OwnersOk, LockOk, TablesOk, InTable;
    BindStep(c, names, w, t);
    var v := Advance(c, names, w, t, true);
    BoundTables(names, w, v, t);
    BoundOwners(names, w, v, t);
    BoundBits(c, names, w, v, t);
    SameLockOk(w, v, t);
    HolderAcquiresOk(names, v, t);
  }

  // ---- unbind ----

  /** The table with one lease less, which the thread now carries. */
  ghost predicate Unbound(w: World, v: World, t: Tid, l: Lid)
    requires t in w.pcs && w.pcs[t].RelUnbind?
  {
    && l in w.heap && InTable(w, l) && w.pcs[t].uid in w.byUid && w.byUid[w.pcs[t].uid] == l
    && w.heap[l].uid == w.pcs[t].uid
    && v == w.(pcs := w.pcs[t := RelUnlock(Some(l))],
               byUid := w.byUid - {w.heap[l].uid}, byUser := w.byUser - {w.heap[l].user})
  }

  lemma UnboundTables(names: Names, w: World, v: World, t: Tid, l: Lid)
    requires TablesOk(names, w) && t in w.pcs && w.pcs[t].RelUnbind? && Unbound(w, v, t, l)
    ensures TablesOk(names, v) && !InTable(v, l)
    ensures forall k | k in w.heap && k != l :: InTable(v, k) == InTable(w, k)
  {
  }

  lemma UnboundOwners(w: World, v: World, t: Tid, l: Lid)
    requires OwnersOk(w) && t in w.pcs && w.pcs[t].RelUnbind? && Unbound(w, v, t, l)
    requires forall k | k in w.heap && k != l :: InTable(v, k) == InTable(w, k)
    requires !InTable(v, l)
    ensures OwnersOk(v)
  {
    assert Carries(v.pcs[t]) == Some(l) && Carries(w.pcs[t]).None?;
    assert forall s | s in w.pcs && s != t :: Carries(v.pcs[s]) == Carries(w.pcs[s]);
    hide InTable, Carries;
    forall k | k in v.heap ensures InTable(v, k) || Carried(v, k) {
      if k != l && !InTable(w, k) {
        var s :| s in w.pcs && Carries(w.pcs[s]) == Some(k);
        assert s in v.pcs && Carries(v.pcs[s]) == Some(k);
      }
    }
  }

  lemma UnboundHolds(w: World, v: World, t: Tid, l: Lid, h: Holder)
    requires t in w.pcs && w.pcs[t].RelUnbind? && Unbound(w, v, t, l)
    requires forall k | k in w.heap && k != l :: InTable(v, k) == InTable(w, k)
    requires h != OfRelease(t) && h != OfLease(l)
    ensures Holds(v, h) == Holds(w, h)
  {
  }

  lemma UnbindStep(c: Config, names: Names, w: World, t: Tid)
    requires Inv(c, names, w) && t in w.pcs && w.pcs[t].RelUnbind? && w.pcs[t].uid in w.byUid
    ensures Unbound(w, Advance(c, names, w, t, true), t, w.byUid[w.pcs[t].uid])
  {
    hide BitsOk, OwnersOk, LockOk;
  }

  lemma UnbindKeepsInv(c: Config, names: Names, w: World, t: Tid)
    requires Inv(c, names, w) && t in w.pcs && w.pcs[t].RelUnbind? && w.pcs[t].uid in w.byUid
    ensures Inv(c, names, Advance(c, names, w, t, true))
  {
    hide Advance, BitsOk, OwnersOk, LockOk, TablesOk;
    UnbindStep(c, names, w, t);
    var v, l := Advance(c, names, w, t, true), w.byUid[w.pcs[t].uid];
    UnboundTables(names, w, v, t, l);
    UnboundOwners(w, v, t, l);
    SameLockOk(w, v, t);
    HolderAcquiresOk(names, v, t);
    var rel, lease := OfRelease(t), OfLease(l);
    assert forall h | h != rel && h != lease :: Holds(v, h) == Holds(w, h) by {
      hide Holds;
      forall h | h != rel && h != lease ensures Holds(v, h) == Holds(w, h) { UnboundHolds(w, v, t, l, h); }
    }
    BitHandedOver(c, w, v, lease, rel);
  }

  lemma NothingToUnbind(c: Config, names: Names, w: World, t: Tid)
    requires Inv(c, names, w) && t in w.pcs && w.pcs[t].RelUnbind? && w.pcs[t].uid !in w.byUid
    ensures Inv(c, names, Advance(c, names, w, t, true))
  {
    hide BitsOk, OwnersOk, LockOk, TablesOk;
    var v := Advance(c, names, w, t, true);
    SameLockOk(w, v, t);
    MoveKeepsInv(c, names, w, v, t);
  }

  // ---- give back the address, then destroy the lease ----

  lemma CarriedIsLive(w: World, t: Tid)
    requires OwnersOk(w) && t in w.pcs && (w.pcs[t].RelPool? || w.pcs[t].RelDestroy?)
    ensures w.pcs[t].lid in w.heap && !InTable(w, w.pcs[t].lid)
    ensures forall s | s in w.pcs && s != t :: Carries(w.pcs[s]) != Some(w.pcs[t].lid)
  {
    assert Carries(w.pcs[t]) == Some(w.pcs[t].lid);
  }

  /** The bit of a dynamic lease that the thread carries is clear, and nothing else is changed. */
  ghost predicate Recycled(w: World, v: World, t: Tid)
    requires t in w.pcs && w.pcs[t].RelPool? && w.pcs[t].lid in w.heap
  {
    var l := w.heap[w.pcs[t].lid];
    v == w.(pcs := w.pcs[t := RelDestroy(w.pcs[t].lid)], busy := if l.fixed then w.busy else w.busy - {l.ip})
  }

  lemma RecycledBits(c: Config, w: World, v: World, t: Tid)
    requires BitsOk(c, w) && t in w.pcs && w.pcs[t].RelPool? && w.pcs[t].lid in w.heap && Recycled(w, v, t)
    requires SameContents(w, v)
    ensures BitsOk(c, v)
  {
    hide BitsOk, InTable, SameContents;
    AllOthersHold(w, v, t);
    if w.heap[w.pcs[t].lid].fixed {
      SameHoldsSameBits(c, w, v);
    } else {
      BitRemoved(c, w, v, OfRelease(t));
    }
  }

  lemma RecycleStep(c: Config, names: Names, w: World, t: Tid)
    requires Inv(c, names, w) && t in w.pcs && w.pcs[t].RelPool?
    ensures w.pcs[t].lid in w.heap && Recycled(w, Advance(c, names, w, t, true), t)
  {
    hide BitsOk, OwnersOk, LockOk, TablesOk;
    CarriedIsLive(w, t);
  }

  lemma RecycleKeepsInv(c: Config, names: Names, w: World, t: Tid)
    requires Inv(c, names, w) && t in w.pcs && w.pcs[t].RelPool?
    ensures Inv(c, names, Advance(c, names, w, t, true))
  {
    hide Advance, BitsOk, OwnersOk, LockOk, TablesOk, Holds;
    RecycleStep(c, names, w, t);
    var v := Advance(c, names, w, t, true);
    SameTablesOk(names, w, v);
    SameLockOk(w, v, t);
    SameOwnersOk(w, v);
    OthersAcquiresOk(names, w, v, t);
    RecycledBits(c, w, v, t);
  }

  /** The heap without a lease that nobody but the thread knows. */
  ghost predicate Dropped(w: World, v: World, t: Tid)
    requires t in w.pcs && w.pcs[t].RelDestroy?
  {
    && w.pcs[t].lid in w.heap && !InTable(w, w.pcs[t].lid)
    && (forall s | s in w.pcs && s != t :: Carries(w.pcs[s]) != Some(w.pcs[t].lid))
    && v == w.(pcs := w.pcs[t := Idle], heap := w.heap - {w.pcs[t].lid})
  }

  lemma DroppedTables(names: Names, w: World, v: World, t: Tid)
    requires TablesOk(names, w) && t in w.pcs && w.pcs[t].RelDestroy? && Dropped(w, v, t)
    ensures TablesOk(names, v)
    ensures forall k | k in v.heap :: InTable(v, k) == InTable(w, k)
    ensures forall u | u in w.byUser :: w.byUser[u] in v.heap
  {
  }

  lemma DroppedOwners(w: World, v: World, t: Tid)
    requires OwnersOk(w) && t in w.pcs && w.pcs[t].RelDestroy? && Dropped(w, v, t)
    requires forall k | k in v.heap :: InTable(v, k) == InTable(w, k)
    ensures OwnersOk(v)
  {
    assert Carries(w.pcs[t]) == Some(w.pcs[t].lid) && Carries(v.pcs[t]).None?;
    assert forall s | s in w.pcs && s != t :: Carries(v.pcs[s]) == Carries(w.pcs[s]);
    hide InTable, Carries;
    forall k | k in v.heap ensures InTable(v, k) || Carried(v, k) {
      if !InTable(w, k) {
        var s :| s in w.pcs && Carries(w.pcs[s]) == Some(k);
        assert s in v.pcs && Carries(v.pcs[s]) == Some(k);
      }
    }
  }

  lemma DroppedHolds(w: World, v: World, t: Tid, h: Holder)
    requires OwnersOk(w) && t in w.pcs && w.pcs[t].RelDestroy? && Dropped(w, v, t)
    ensures Holds(v, h) == Holds(w, h)
  {
  }

  lemma DestroyStep(c: Config, names: Names, w: World, t: Tid)
    requires Inv(c, names, w) && t in w.pcs && w.pcs[t].RelDestroy?
    ensures Dropped(w, Advance(c, names, w, t, true), t)
  {
    hide BitsOk, OwnersOk, LockOk, TablesOk;
    CarriedIsLive(w, t);
  }

  lemma DestroyKeepsInv(c: Config, names: Names, w: World, t: Tid)
    requires Inv(c, names, w) && t in w.pcs && w.pcs[t].RelDestroy?
    ensures Inv(c, names, Advance(c, names, w, t, true))
  {
    hide Advance, BitsOk, OwnersOk, LockOk, TablesOk, InTable;
    DestroyStep(c, names, w, t);
    var v := Advance(c, names, w, t, true);
    DroppedTables(names, w, v, t);
    DroppedOwners(w, v, t);
    SameLockOk(w, v, t);
    OthersAcquiresOk(names, w, v, t);
    forall h ensures Holds(v, h) == Holds(w, h) { DroppedHolds(w, v, t, h); }
    SameHoldsSameBits(c, w, v);
  }

  // ---- every action, every run ----

  lemma AdvanceKeepsInv(c: Config, names: Names, w: World, t: Tid, cloneOk: bool)
    requires Inv(c, names, w) && t in w.pcs
    ensures Inv(c, names, Advance(c, names, w, t, cloneOk))
  {
    hide Inv;
    match w.pcs[t]
    case AcqMigrate(_, _) => MigrateKeepsInv(c, names, w, t);
    case AcqPool(_, _) => PoolKeepsInv(c, names, w, t);
    case AcqBind(_, _, _) => BindKeepsInv(c, names, w, t);
    case RelUnbind(uid) =>
      if uid in w.byUid { UnbindKeepsInv(c, names, w, t); } else { NothingToUnbind(c, names, w, t); }
    case RelPool(_) => RecycleKeepsInv(c, names, w, t);
    case RelDestroy(_) => DestroyKeepsInv(c, names, w, t);
    case _ => MovesKeepInv(c, names, w, t, cloneOk);
  }

  lemma ActKeepsInv(c: Config, names: Names, w: World, a: Action)
    requires Inv(c, names, w)
    ensures Inv(c, names, Act(c, names, w, a))
  {
    hide BitsOk, OwnersOk, TablesOk, Advance;
    var v := Act(c, names, w, a);
    match a
    case CallAcquire(t, _) =>
      if v != w { SameLockOk(w, v, t); MoveKeepsInv(c, names, w, v, t); }
    case CallRelease(t, _) =>
      if v != w { SameLockOk(w, v, t); MoveKeepsInv(c, names, w, v, t); }
    case Go(t, cloneOk) =>
      if t in w.pcs { AdvanceKeepsInv(c, names, w, t, cloneOk); }
    case ReloadTo(p) =>
      SameTablesOk(names, w, v);
      SameOwnersOk(w, v);
      SameHoldsSameBits(c, w, v);
      forall s | s in v.pcs ensures AcquireOk(names, v, v.pcs[s]) {
        assert AcquireOk(names, w, w.pcs[s]);
      }
  }

  lemma {:induction false} InterleavingKeepsInv(c: Config, names: Names, w: World, actions: seq<Action>)
    requires Inv(c, names, w)
    ensures Inv(c, names, Interleave(c, names, w, actions))
    decreases |actions|
  {
    hide Inv;
    if actions != [] {
      ActKeepsInv(c, names, w, actions[0]);
      InterleavingKeepsInv(c, names, Act(c, names, w, actions[0]), actions[1..]);
    }
  }
}
