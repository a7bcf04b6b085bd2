/** Every interleaved run is a run of the simple allocator, with one thing added: the addresses of leases
    that have left the table and are not yet back in the pool.  Each acquire and each release takes effect
    at one step of its own. */
module Atomicity {
  import opened Hosts
  import opened Naming
  import opened Leases
  import opened YamlParser
  import opened AllocatorSpec
  import opened Interleaving
  import opened InterleavedRuns

  /** `limbo`: released, but not yet given back. */
  datatype Simple = Simple(leases: map<string, LeaseRec>, limbo: set<Host>)

  /** `asked` is the policy the acquire consulted; a reload may have replaced it since. */
  datatype Effect =
    | Take(uid: u32, asked: Policy)
    | Leave(uid: u32)
    | GiveBack(ip: Host)

  function Happen(c: Config, names: Names, s: Simple, e: Effect): Simple {
    match e
    case Take(uid, asked) =>
      var user := names(uid);
      if user in s.leases then s.(leases := s.leases[user := s.leases[user].(uid := uid)])
      else if Served(asked, user) then s.(leases := s.leases[user := LeaseRec(uid, asked.users[user], true, 0)])
      else
        (match PoolChoice(c, Taken(s.leases) + s.limbo)
         case None => s
         case Some(ip) => s.(leases := s.leases[user := LeaseRec(uid, ip, false, 0)]))
    case Leave(uid) =>
      var user := names(uid);
      if user !in s.leases || s.leases[user].uid != uid then s
      else Simple(s.leases - {user}, s.limbo + if s.leases[user].fixed then {} else {s.leases[user].ip})
    case GiveBack(ip) => s.(limbo := s.limbo - {ip})
  }

  function HappenAll(c: Config, names: Names, s: Simple, effects: seq<Effect>): Simple
    decreases |effects|
  {
    if effects == [] then s else HappenAll(c, names, Happen(c, names, s, effects[0]), effects[1..])
  }

  /** The step at which an operation takes effect. */
  function EffectOf(names: Names, w: World, a: Action): seq<Effect> {
    if !a.Go? || a.t !in w.pcs then []
    else
      match w.pcs[a.t]
      case AcqMigrate(uid, _) => [Take(uid, w.policy)]
      case AcqPolicy(uid) => if Served(w.policy, names(uid)) then [Take(uid, w.policy)] else []
      case AcqPool(uid, asked) => [Take(uid, asked)]
      case RelUnbind(uid) => [Leave(uid)]
      case RelPool(lid) => if lid in w.heap && !w.heap[lid].fixed then [GiveBack(w.heap[lid].ip)] else []
      case _ => []
  }

  function Effects(c: Config, names: Names, w: World, actions: seq<Action>): seq<Effect>
    decreases |actions|
  {
    if actions == [] then []
    else EffectOf(names, w, actions[0]) + Effects(c, names, Act(c, names, w, actions[0]), actions[1..])
  }

  // ---- what an interleaved state stands for ----

  function RecOf(l: HeapLease): LeaseRec {
    LeaseRec(l.uid, l.ip, l.fixed, 0)
  }

  function TableOf(byUser: map<string, Lid>, heap: map<Lid, HeapLease>): map<string, LeaseRec> {
    map u | u in byUser && byUser[u] in heap :: RecOf(heap[byUser[u]])
  }

  function Tabled(w: World): map<string, LeaseRec> {
    TableOf(w.byUser, w.heap)
  }

  /** The holder of the lock owns an address that is not in the table yet. */
  predicate Binding(w: World) {
    w.lock.Some? && w.lock.value in w.pcs && w.pcs[w.lock.value].AcqBind?
  }

  function Leased(names: Names, w: World): map<string, LeaseRec> {
    if !Binding(w) then Tabled(w)
    else
      var pc := w.pcs[w.lock.value];
      Tabled(w)[names(pc.uid) := LeaseRec(pc.uid, pc.ip, pc.fixed, 0)]
  }

  function Meaning(names: Names, w: World): Simple {
    Simple(Leased(names, w), Pending(w))
  }

  // ---- each step is its effect ----

  lemma TabledIsLive(names: Names, w: World)
    requires TablesOk(names, w)
    ensures Taken(Tabled(w)) == Live(w)
  {
    forall ip ensures ip in Taken(Tabled(w)) <==> ip in Live(w) {
      if ip in Taken(Tabled(w)) {
        var u :| u in Tabled(w) && !Tabled(w)[u].fixed && Tabled(w)[u].ip == ip;
        assert InTable(w, w.byUser[u]);
      }
      if ip in Live(w) {
        var l :| l in w.heap && InTable(w, l) && !w.heap[l].fixed && w.heap[l].ip == ip;
        assert w.heap[l].user in Tabled(w);
      }
    }
  }

  lemma SamePending(w: World, v: World)
    requires forall t :: Holds(v, OfRelease(t)) == Holds(w, OfRelease(t))
    ensures Pending(v) == Pending(w)
  {
    forall ip ensures ip in Pending(v) <==> ip in Pending(w) {
      if ip in Pending(v) {
        var t :| t in v.pcs && Pends(v, t) && PendingOf(v, t) == ip;
        assert Holds(v, OfRelease(t)) == Some(ip) && Holds(w, OfRelease(t)) == Some(ip);
        assert Pends(w, t);
      }
      if ip in Pending(w) {
        var t :| t in w.pcs && Pends(w, t) && PendingOf(w, t) == ip;
        assert Holds(v, OfRelease(t)) == Some(ip) && Holds(w, OfRelease(t)) == Some(ip);
        assert Pends(v, t);
      }
    }
  }

  /** The leases that other threads carry keep their address. */
  ghost predicate KeepsCarried(w: World, v: World, t: Tid) {
    && t in w.pcs && t in v.pcs && v.pcs == w.pcs[t := v.pcs[t]]
    && forall s | s in w.pcs && s != t && Carries(w.pcs[s]).Some? ::
         var l := Carries(w.pcs[s]).value;
         l in w.heap && l in v.heap && v.heap[l].ip == w.heap[l].ip && v.heap[l].fixed == w.heap[l].fixed
  }

  lemma OthersPending(w: World, v: World, t: Tid)
    requires KeepsCarried(w, v, t)
    ensures forall s | s != t :: Holds(v, OfRelease(s)) == Holds(w, OfRelease(s))
  {
  }

  lemma PendingUnmoved(w: World, v: World, t: Tid)
    requires KeepsCarried(w, v, t) && Holds(v, OfRelease(t)) == Holds(w, OfRelease(t))
    ensures Pending(v) == Pending(w)
  {
    OthersPending(w, v, t);
    hide Holds;
    SamePending(w, v);
  }

  /** Only the holder of the lock can be binding. */
  lemma SameBinding(w: World, v: World, t: Tid)
    requires LockOk(w) && LockOk(v) && t in w.pcs && t in v.pcs && v.pcs == w.pcs[t := v.pcs[t]]
    requires !w.pcs[t].AcqBind? && !v.pcs[t].AcqBind?
    ensures Binding(v) == Binding(w) && (Binding(w) ==> v.lock == w.lock && v.pcs[w.lock.value] == w.pcs[w.lock.value])
  {
    if Binding(w) {
      assert Holding(v.pcs[w.lock.value]);
    }
    if Binding(v) {
      assert Holding(w.pcs[v.lock.value]);
    }
  }

  /** The steps without an effect that touch neither leases nor pool. */
  lemma MoveIsQuiet(c: Config, names: Names, w: World, t: Tid, cloneOk: bool)
    requires Inv(c, names, w) && t in w.pcs && IsMove(w.pcs[t])
    requires !(w.pcs[t].AcqPolicy? && Served(w.policy, names(w.pcs[t].uid)))
    ensures Meaning(names, Advance(c, names, w, t, cloneOk)) == Meaning(names, w)
  {
    hide BitsOk, TablesOk, LockOk, Served, Advance, Move, Next, Holds;
    assert AcquireOk(names, w, w.pcs[t]);
    AdvanceMoves(c, names, w, t, cloneOk);
    MovesOnlyMove(names, w, t, cloneOk);
    MovesKeepLock(names, w, t, cloneOk);
    NextOfPolicy(names, w, w.pcs[t], cloneOk);
    var v := Advance(c, names, w, t, cloneOk);
    if v != w {
      OnlyMovesHolds(w, v, t);
      PendingUnmoved(w, v, t);
      SameBinding(w, v, t);
    }
  }

  /** The thread holds the lock, so nobody else is binding. */
  lemma HolderBinds(w: World, t: Tid)
    requires LockOk(w) && t in w.pcs && Holding(w.pcs[t])
    ensures w.lock == Some(t) && Binding(w) == w.pcs[t].AcqBind?
    ensures !w.pcs[t].AcqBind? ==> InFlight(w) == {}
  {
  }

  /** A fixed address: the acquire takes effect when it consults the policy. */
  lemma ServedIsTake(c: Config, names: Names, w: World, t: Tid)
    requires Inv(c, names, w) && t in w.pcs && w.pcs[t].AcqPolicy? && Served(w.policy, names(w.pcs[t].uid))
    ensures Meaning(names, Advance(c, names, w, t, true))
         == Happen(c, names, Meaning(names, w), Take(w.pcs[t].uid, w.policy))
  {
    hide BitsOk, TablesOk, LockOk, Served;
    HolderBinds(w, t);
    assert AcquireOk(names, w, w.pcs[t]);
    PendingUnmoved(w, Advance(c, names, w, t, true), t);
  }

  lemma MigrateIsTake(c: Config, names: Names, w: World, t: Tid)
    requires Inv(c, names, w) && t in w.pcs && w.pcs[t].AcqMigrate?
    ensures Meaning(names, Advance(c, names, w, t, true))
         == Happen(c, names, Meaning(names, w), Take(w.pcs[t].uid, w.policy))
  {
    hide Advance, BitsOk, LockOk, Served;
    MigrateStep(c, names, w, t);
    HolderBinds(w, t);
    var v := Advance(c, names, w, t, true);
    PendingUnmoved(w, v, t);
    assert Tabled(v) == Happen(c, names, Meaning(names, w), Take(w.pcs[t].uid, w.policy)).leases;
  }

  /** What the pool sees as set is what the simple allocator sees as taken. */
  lemma BusyIsTakenOrLimbo(c: Config, names: Names, w: World)
    requires TablesOk(names, w) && BitsOk(c, w) && InFlight(w) == {} && !Binding(w)
    ensures w.busy == Taken(Meaning(names, w).leases) + Meaning(names, w).limbo
  {
    hide TablesOk, BitsOk, Live, Pending, Tabled;
    TabledIsLive(names, w);
    HoldersAre(c, w);
  }

  /** A pool address: the acquire takes effect when the pool hands it out. */
  lemma PoolIsTake(c: Config, names: Names, w: World, t: Tid)
    requires Inv(c, names, w) && t in w.pcs && w.pcs[t].AcqPool?
    ensures Meaning(names, Advance(c, names, w, t, true))
         == Happen(c, names, Meaning(names, w), Take(w.pcs[t].uid, w.pcs[t].asked))
  {
    hide Advance, Served, PoolChoice, InPool, BitsOk, TablesOk, LockOk, Taken, InFlight, Pending;
    PoolStep(c, names, w, t);
    assert AcquireOk(names, w, w.pcs[t]);
    HolderBinds(w, t);
    BusyIsTakenOrLimbo(c, names, w);
    PendingUnmoved(w, Advance(c, names, w, t, true), t);
  }

  lemma TableGrows(byUser: map<string, Lid>, heap: map<Lid, HeapLease>, user: string, lid: Lid, l: HeapLease)
    requires lid !in heap && forall u | u in byUser :: byUser[u] in heap
    ensures TableOf(byUser[user := lid], heap[lid := l]) == TableOf(byUser, heap)[user := RecOf(l)]
  {
  }

  lemma BoundTabled(names: Names, w: World, v: World, t: Tid)
    requires TablesOk(names, w) && t in w.pcs && w.pcs[t].AcqBind? && Bound(names, w, v, t)
    ensures var pc := w.pcs[t];
            Tabled(v) == Tabled(w)[names(pc.uid) := LeaseRec(pc.uid, pc.ip, pc.fixed, 0)]
  {
    hide TableOf;
    TableGrows(w.byUser, w.heap, names(w.pcs[t].uid), w.next, v.heap[w.next]);
  }

  lemma BindIsQuiet(c: Config, names: Names, w: World, t: Tid)
    requires Inv(c, names, w) && t in w.pcs && w.pcs[t].AcqBind?
    ensures Meaning(names, Advance(c, names, w, t, true)) == Meaning(names, w)
  {
    hide Advance, BitsOk, LockOk, TablesOk, Tabled, Holds;
    BindStep(c, names, w, t);
    HolderBinds(w, t);
    var v := Advance(c, names, w, t, true);
    BoundTabled(names, w, v, t);
    NoneReleased(w, v, t);
    PendingUnmoved(w, v, t);
  }

  lemma NoneReleased(w: World, v: World, t: Tid)
    requires t in w.pcs && t in v.pcs && Carries(w.pcs[t]).None? && Carries(v.pcs[t]).None?
    ensures Holds(w, OfRelease(t)).None? && Holds(v, OfRelease(t)).None?
  {
  }

  lemma UnboundPending(w: World, v: World, t: Tid, l: Lid)
    requires OwnersOk(w) && t in w.pcs && w.pcs[t].RelUnbind? && Unbound(w, v, t, l)
    ensures Pending(v) == Pending(w) + if w.heap[l].fixed then {} else {w.heap[l].ip}
  {
    assert KeepsCarried(w, v, t);
    OthersPending(w, v, t);
    forall ip ensures ip in Pending(v) <==> ip in Pending(w) || (!w.heap[l].fixed && ip == w.heap[l].ip) {
      PendingAs(w, ip);
      PendingAs(v, ip);
    }
  }

  lemma PendingAs(w: World, ip: Host)
    ensures ip in Pending(w) <==> exists t :: Holds(w, OfRelease(t)) == Some(ip)
  {
    PendingIsHeld(w, ip);
    forall t | Holds(w, OfRelease(t)) == Some(ip) ensures ip in Pending(w) {
      assert Pends(w, t);
    }
  }

  lemma UnboundTabled(names: Names, w: World, v: World, t: Tid, l: Lid)
    requires TablesOk(names, w) && t in w.pcs && w.pcs[t].RelUnbind? && Unbound(w, v, t, l)
    ensures var user := w.heap[l].user;
            && user == names(w.pcs[t].uid) && user in Tabled(w) && Tabled(w)[user] == RecOf(w.heap[l])
            && Tabled(v) == Tabled(w) - {user}
  {
  }

  lemma NothingTabled(names: Names, w: World, uid: u32)
    requires TablesOk(names, w) && uid !in w.byUid
    ensures names(uid) in Tabled(w) ==> Tabled(w)[names(uid)].uid != uid
  {
  }

  lemma UnbindIsLeave(c: Config, names: Names, w: World, t: Tid)
    requires Inv(c, names, w) && t in w.pcs && w.pcs[t].RelUnbind?
    ensures Meaning(names, Advance(c, names, w, t, true)) == Happen(c, names, Meaning(names, w), Leave(w.pcs[t].uid))
  {
    hide BitsOk, LockOk, TablesOk, Tabled;
    HolderBinds(w, t);
    var v := Advance(c, names, w, t, true);
    if w.pcs[t].uid in w.byUid {
      var l := w.byUid[w.pcs[t].uid];
      UnbindStep(c, names, w, t);
      UnboundPending(w, v, t, l);
      UnboundTabled(names, w, v, t, l);
    } else {
      NothingTabled(names, w, w.pcs[t].uid);
      PendingUnmoved(w, v, t);
      SameTabled(w, v);
    }
  }

  lemma SameTabled(w: World, v: World)
    requires v.byUser == w.byUser && v.heap == w.heap
    ensures Tabled(v) == Tabled(w)
  {
  }

  lemma RecycledPending(c: Config, w: World, v: World, t: Tid)
    requires BitsOk(c, w) && t in w.pcs && w.pcs[t].RelPool? && w.pcs[t].lid in w.heap && Recycled(w, v, t)
    requires KeepsCarried(w, v, t) && !w.heap[w.pcs[t].lid].fixed
    ensures Pending(v) == Pending(w) - {w.heap[w.pcs[t].lid].ip}
  {
    OthersPending(w, v, t);
    var mine := w.heap[w.pcs[t].lid].ip;
    assert Holds(w, OfRelease(t)) == Some(mine) && Holds(v, OfRelease(t)).None?;
    hide Pending, KeepsCarried, Recycled;
    forall ip ensures ip in Pending(v) <==> ip in Pending(w) && ip != mine {
      PendingAs(w, ip);
      PendingAs(v, ip);
      forall s | s != t && Holds(w, OfRelease(s)).Some? ensures Holds(w, OfRelease(s)) != Some(mine) {
        assert OfRelease(s) != OfRelease(t);
      }
    }
  }

  lemma RecycleIsGiveBack(c: Config, names: Names, w: World, t: Tid)
    requires Inv(c, names, w) && t in w.pcs && w.pcs[t].RelPool?
    ensures w.pcs[t].lid in w.heap
    ensures var l, v := w.heap[w.pcs[t].lid], Advance(c, names, w, t, true);
            Meaning(names, v)
              == if l.fixed then Meaning(names, w) else Happen(c, names, Meaning(names, w), GiveBack(l.ip))
  {
    hide Advance, BitsOk, LockOk, TablesOk, Pending;
    RecycleStep(c, names, w, t);
    var v := Advance(c, names, w, t, true);
    assert KeepsCarried(w, v, t);
    if w.heap[w.pcs[t].lid].fixed {
      PendingUnmoved(w, v, t);
    } else {
      RecycledPending(c, w, v, t);
    }
    assert Tabled(v) == Tabled(w);
  }

  lemma DestroyIsQuiet(c: Config, names: Names, w: World, t: Tid)
    requires Inv(c, names, w) && t in w.pcs && w.pcs[t].RelDestroy?
    ensures Meaning(names, Advance(c, names, w, t, true)) == Meaning(names, w)
  {
    hide Advance, BitsOk, LockOk, TablesOk, InTable;
    DestroyStep(c, names, w, t);
    var v := Advance(c, names, w, t, true);
    PendingUnmoved(w, v, t);
    DroppedTables(names, w, v, t);
    assert Tabled(v) == Tabled(w);
  }

  // ---- every run ----

  lemma AdvanceIsEffect(c: Config, names: Names, w: World, t: Tid, cloneOk: bool)
    requires Inv(c, names, w) && t in w.pcs
    ensures Meaning(names, Advance(c, names, w, t, cloneOk))
         == HappenAll(c, names, Meaning(names, w), EffectOf(names, w, Go(t, cloneOk)))
  {
    hide Inv, Meaning, Happen, Served;
    OneEffect(c, names, Meaning(names, w));
    match w.pcs[t]
    case AcqMigrate(_, _) => MigrateIsTake(c, names, w, t);
    case AcqPolicy(uid) =>
      if Served(w.policy, names(uid)) {
        ServedIsTake(c, names, w, t);
      } else {
        MoveIsQuiet(c, names, w, t, cloneOk);
      }
    case AcqPool(_, _) => PoolIsTake(c, names, w, t);
    case AcqBind(_, _, _) => BindIsQuiet(c, names, w, t);
    case RelUnbind(_) => UnbindIsLeave(c, names, w, t);
    case RelPool(_) => RecycleIsGiveBack(c, names, w, t);
    case RelDestroy(_) => DestroyIsQuiet(c, names, w, t);
    case _ => MoveIsQuiet(c, names, w, t, cloneOk);
  }

  lemma OneEffect(c: Config, names: Names, s: Simple)
    ensures HappenAll(c, names, s, []) == s
    ensures forall e :: HappenAll(c, names, s, [e]) == Happen(c, names, s, e)
  {
    forall e ensures HappenAll(c, names, s, [e]) == Happen(c, names, s, e) {
      assert [e][1..] == [];
    }
  }

  lemma CallIsQuiet(c: Config, names: Names, w: World, a: Action)
    requires Inv(c, names, w) && !a.Go?
    ensures Meaning(names, Act(c, names, w, a)) == Meaning(names, w)
  {
    hide BitsOk, TablesOk;
    var v := Act(c, names, w, a);
    if !a.ReloadTo? && v != w {
      PendingUnmoved(w, v, a.t);
      SameBinding(w, v, a.t);
    } else if a.ReloadTo? {
      SamePending(w, v);
    }
  }

  lemma ActIsEffect(c: Config, names: Names, w: World, a: Action)
    requires Inv(c, names, w)
    ensures Meaning(names, Act(c, names, w, a)) == HappenAll(c, names, Meaning(names, w), EffectOf(names, w, a))
  {
    hide Inv, Meaning, Advance, Happen;
    if !a.Go? {
      CallIsQuiet(c, names, w, a);
    } else if a.t in w.pcs {
      AdvanceIsEffect(c, names, w, a.t, a.cloneOk);
    }
  }

  lemma {:induction false} HappenConcat(c: Config, names: Names, s: Simple, a: seq<Effect>, b: seq<Effect>)
    ensures HappenAll(c, names, s, a + b) == HappenAll(c, names, HappenAll(c, names, s, a), b)
    decreases |a|
  {
    if a == [] {
      assert a + b == b;
    } else {
      assert (a + b)[0] == a[0] && (a + b)[1..] == a[1..] + b;
      HappenConcat(c, names, Happen(c, names, s, a[0]), a[1..], b);
    }
  }

  /** Every interleaving of any threads ends where the simple allocator ends when the effects happen
      one after the other. */
  lemma {:induction false} RunIsItsEffects(c: Config, names: Names, w: World, actions: seq<Action>)
    requires Inv(c, names, w)
    ensures Meaning(names, Interleave(c, names, w, actions))
         == HappenAll(c, names, Meaning(names, w), Effects(c, names, w, actions))
    decreases |actions|
  {
    hide Inv, Meaning, Happen, EffectOf, Act;
    if actions != [] {
      var v := Act(c, names, w, actions[0]);
      ActIsEffect(c, names, w, actions[0]);
      ActKeepsInv(c, names, w, actions[0]);
      RunIsItsEffects(c, names, v, actions[1..]);
      HappenConcat(c, names, Meaning(names, w), EffectOf(names, w, actions[0]), Effects(c, names, v, actions[1..]));
    }
  }

  /** A thread that is about to answer with an address answers with the one the simple allocator has
      recorded for its user, under its uid. */
  lemma AnswerIsRecorded(c: Config, names: Names, w: World, t: Tid)
    requires Inv(c, names, w) && t in w.pcs && (w.pcs[t].AcqReuse? || w.pcs[t].AcqClone?)
    ensures var pc, s := w.pcs[t], Meaning(names, w);
            && pc.lid in w.heap && names(pc.uid) in s.leases
            && s.leases[names(pc.uid)].ip == w.heap[pc.lid].ip && s.leases[names(pc.uid)].uid == pc.uid
  {
    hide BitsOk, OwnersOk;
    HolderBinds(w, t);
    assert AcquireOk(names, w, w.pcs[t]);
  }

  /** Addresses on their way back change the choice of the pool exactly when one of them is the choice. */
  lemma LimboMatters(c: Config, taken: set<Host>, limbo: set<Host>)
    ensures PoolChoice(c, taken + limbo) == PoolChoice(c, taken)
       <==> PoolChoice(c, taken).None? || PoolChoice(c, taken).value !in limbo
  {
    if c.pool.Some? && c.pool.value.lo <= c.pool.value.hi {
      var lo, hi := c.pool.value.lo, c.pool.value.hi;
      FirstFreeIs(lo, hi, taken);
      FirstFreeIs(lo, hi, taken + limbo);
      hide FirstFree;
      var one, both := FirstFree(lo, hi, taken), FirstFree(lo, hi, taken + limbo);
      if one.Some? && one.value !in limbo {
        assert both.Some?;
        assert HostToU32(one.value) == HostToU32(both.value);
      }
    }
  }

  /** The effect of an acquire is the acquire of the sequential specification exactly when the user has a
      lease, or a fixed address, or the address the pool would give is not on its way back.  The clock of
      the specification stands still here. */
  lemma TakeIsAcquire(c: Config, names: Names, s: Simple, sa: Sa, asked: Policy)
    requires EffectiveName(sa) == names(sa.uid)
    requires forall u | u in s.leases :: s.leases[u].acquired == 0
    ensures var user, choice := EffectiveName(sa), PoolChoice(c, Taken(s.leases));
            (Happen(c, names, s, Take(sa.uid, asked))
                == s.(leases := AcquireFor(c, State(s.leases, asked), sa, 0, true).0.leases))
            <==> (user in s.leases || Served(asked, user) || choice.None? || choice.value !in s.limbo)
  {
    hide Taken, EffectiveName, FirstFree, Served;
    LimboMatters(c, Taken(s.leases), s.limbo);
    var user, state := EffectiveName(sa), State(s.leases, asked);
    if user !in s.leases && !Served(asked, user) {
      var choice, other := PoolChoice(c, Taken(s.leases)), PoolChoice(c, Taken(s.leases) + s.limbo);
      TakenAlone(c, state, sa, choice);
      if choice.Some? && other.Some? && choice != other {
        var one, two := LeaseRec(sa.uid, choice.value, false, 0), LeaseRec(sa.uid, other.value, false, 0);
        assert s.leases[user := one][user] != s.leases[user := two][user];
      }
    }
  }

  /** What the sequential specification does for a user without a lease and without a fixed address. */
  lemma TakenAlone(c: Config, s: State, sa: Sa, choice: Option<Host>)
    requires choice == PoolChoice(c, Taken(s.leases))
    requires EffectiveName(sa) !in s.leases && !Served(s.policy, EffectiveName(sa))
    ensures AcquireFor(c, s, sa, 0, true).0.leases
         == if choice.None? then s.leases else s.leases[EffectiveName(sa) := LeaseRec(sa.uid, choice.value, false, 0)]
  {
    hide Taken, EffectiveName, FirstFree, Served;
  }

  lemma LeaveIsRelease(c: Config, names: Names, s: Simple, sa: Sa, asked: Policy)
    requires Named(names, State(s.leases, asked))
    ensures Happen(c, names, s, Leave(sa.uid)).leases == Apply(c, State(s.leases, asked), Release(Some(sa))).0.leases
  {
  }
}
