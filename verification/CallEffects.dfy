/** Each call has one effect, at a step of its own between call and return: an acquire one Take, a release
    one Leave, and an acquire whose result cannot be cloned one Leave more. */
module CallEffects {
  import opened Counting
  import opened Hosts
  import opened Naming
  import opened AllocatorSpec
  import opened Interleaving
  import opened InterleavedRuns
  import opened Atomicity

  /** The action is a step of the thread that takes, or leaves, under the uid. */
  predicate TakesBy(names: Names, w: World, a: Action, t: Tid, uid: u32) {
    a.Go? && a.t == t && var es := EffectOf(names, w, a); es != [] && es[0].Take? && es[0].uid == uid
  }

  predicate LeavesBy(names: Names, w: World, a: Action, t: Tid, uid: u32) {
    a.Go? && a.t == t && var es := EffectOf(names, w, a); es != [] && es[0].Leave? && es[0].uid == uid
  }

  /** The action begins an acquire of the thread under the uid. */
  predicate BeginsAcquire(w: World, a: Action, t: Tid, uid: u32) {
    a == CallAcquire(t, uid) && t in w.pcs && w.pcs[t].Idle?
  }

  /** The action begins a release: by a call, or to undo an acquire whose result cannot be cloned. */
  predicate BeginsRelease(w: World, a: Action, t: Tid, uid: u32) {
    t in w.pcs && ((a == CallRelease(t, uid) && w.pcs[t].Idle?) || FailsToClone(w, a, t, uid))
  }

  predicate FailsToClone(w: World, a: Action, t: Tid, uid: u32) {
    a == Go(t, false) && t in w.pcs && w.pcs[t].AcqClone? && w.pcs[t].uid == uid
  }

  /** The thread is inside an acquire, or a release, that has not had its effect. */
  predicate OwesTake(pc: Pc, uid: u32) {
    (pc.AcqWait? || pc.AcqLookup? || pc.AcqMigrate? || pc.AcqPolicy? || pc.AcqPool?) && pc.uid == uid
  }

  predicate OwesLeave(pc: Pc, uid: u32) {
    (pc.RelWait? || pc.RelUnbind?) && pc.uid == uid
  }

  // ---- tallies over a run ----

  function Takes(c: Config, names: Names, w: World, actions: seq<Action>, t: Tid, uid: u32): nat
    decreases |actions|
  {
    if actions == [] then 0
    else
      Count(TakesBy(names, w, actions[0], t, uid))
      + Takes(c, names, Act(c, names, w, actions[0]), actions[1..], t, uid)
  }

  function Leaves(c: Config, names: Names, w: World, actions: seq<Action>, t: Tid, uid: u32): nat
    decreases |actions|
  {
    if actions == [] then 0
    else
      Count(LeavesBy(names, w, actions[0], t, uid))
      + Leaves(c, names, Act(c, names, w, actions[0]), actions[1..], t, uid)
  }

  function Acquires(c: Config, names: Names, w: World, actions: seq<Action>, t: Tid, uid: u32): nat
    decreases |actions|
  {
    if actions == [] then 0
    else
      Count(BeginsAcquire(w, actions[0], t, uid))
      + Acquires(c, names, Act(c, names, w, actions[0]), actions[1..], t, uid)
  }

  function Releases(c: Config, names: Names, w: World, actions: seq<Action>, t: Tid, uid: u32): nat
    decreases |actions|
  {
    if actions == [] then 0
    else
      Count(BeginsRelease(w, actions[0], t, uid))
      + Releases(c, names, Act(c, names, w, actions[0]), actions[1..], t, uid)
  }

  // ---- one step ----

  /** What one action owes and pays. */
  ghost predicate Balanced(names: Names, w: World, v: World, a: Action, t: Tid, uid: u32) {
    && t in w.pcs && t in v.pcs
    && Count(OwesTake(v.pcs[t], uid)) + Count(TakesBy(names, w, a, t, uid))
       == Count(OwesTake(w.pcs[t], uid)) + Count(BeginsAcquire(w, a, t, uid))
    && Count(OwesLeave(v.pcs[t], uid)) + Count(LeavesBy(names, w, a, t, uid))
       == Count(OwesLeave(w.pcs[t], uid)) + Count(BeginsRelease(w, a, t, uid))
  }

  /** A move that is not blocked lands where it leads. */
  lemma MoveLands(names: Names, w: World, t: Tid, cloneOk: bool)
    requires LockOk(w) && TablesOk(names, w) && t in w.pcs && IsMove(w.pcs[t]) && AcquireOk(names, w, w.pcs[t])
    ensures var pc, v := w.pcs[t], Move(names, w, t, cloneOk);
            v == w || (t in v.pcs && v.pcs[t] == Next(names, w, pc, cloneOk))
    ensures Move(names, w, t, cloneOk) == w ==> w.pcs[t].Idle? || Locks(w.pcs[t])
  {
    MovesOnlyMove(names, w, t, cloneOk);
    NextMovesOn(names, w, w.pcs[t], cloneOk);
    FoundIsLive(names, w, w.pcs[t]);
    assert Unlocks(w.pcs[t]) ==> Holding(w.pcs[t]);
    hide Next, TablesOk, OnlyMoves;
  }

  lemma NextMovesOn(names: Names, w: World, pc: Pc, cloneOk: bool)
    requires IsMove(pc)
    ensures Next(names, w, pc, cloneOk) == pc ==> pc.Idle?
  {
    hide Served;
  }

  lemma NextPays(names: Names, w: World, t: Tid, cloneOk: bool, uid: u32)
    requires t in w.pcs && IsMove(w.pcs[t])
    ensures var pc, next, a := w.pcs[t], Next(names, w, w.pcs[t], cloneOk), Go(t, cloneOk);
            && Count(OwesTake(next, uid)) + Count(TakesBy(names, w, a, t, uid)) == Count(OwesTake(pc, uid))
            && Count(OwesLeave(next, uid)) + Count(LeavesBy(names, w, a, t, uid))
               == Count(OwesLeave(pc, uid)) + Count(BeginsRelease(w, a, t, uid))
  {
    hide Served;
  }

  lemma WaitingPays(names: Names, w: World, t: Tid, cloneOk: bool, uid: u32)
    requires t in w.pcs && (w.pcs[t].Idle? || Locks(w.pcs[t]))
    ensures Balanced(names, w, w, Go(t, cloneOk), t, uid)
  {
  }

  lemma MoveBalances(c: Config, names: Names, w: World, t: Tid, cloneOk: bool, uid: u32)
    requires Inv(c, names, w) && t in w.pcs && IsMove(w.pcs[t])
    ensures Balanced(names, w, Advance(c, names, w, t, cloneOk), Go(t, cloneOk), t, uid)
  {
    hide Advance, Move, Next, BitsOk, OwnersOk, TablesOk, LockOk;
    hide OwesTake, OwesLeave, TakesBy, LeavesBy, BeginsRelease;
    assert AcquireOk(names, w, w.pcs[t]);
    AdvanceMoves(c, names, w, t, cloneOk);
    MoveLands(names, w, t, cloneOk);
    NextPays(names, w, t, cloneOk, uid);
    if Advance(c, names, w, t, cloneOk) == w {
      WaitingPays(names, w, t, cloneOk, uid);
    }
  }

  /** Where the steps that touch leases or pool lead. */
  predicate Leads(pc: Pc, next: Pc) {
    match pc
    case AcqMigrate(_, _) => next.AcqReuse?
    case AcqPool(_, _) => next.AcqBind? || next.AcqNone?
    case AcqBind(_, _, _) => next.AcqClone?
    case RelUnbind(_) => next.RelUnlock?
    case RelPool(_) => next.RelDestroy?
    case RelDestroy(_) => next.Idle?
    case _ => true
  }

  ghost predicate OneMoves(w: World, v: World, t: Tid) {
    v.pcs.Keys == w.pcs.Keys && forall s | s in w.pcs && s != t :: v.pcs[s] == w.pcs[s]
  }

  lemma UnbindLeads(c: Config, names: Names, w: World, t: Tid)
    requires Inv(c, names, w) && t in w.pcs && w.pcs[t].RelUnbind?
    ensures var v := Advance(c, names, w, t, true);
            OneMoves(w, v, t) && t in v.pcs && v.pcs[t].RelUnlock?
  {
    hide BitsOk, OwnersOk, LockOk;
  }

  lemma OthersLead(c: Config, names: Names, w: World, t: Tid)
    requires Inv(c, names, w) && t in w.pcs && !IsMove(w.pcs[t])
    ensures var v := Advance(c, names, w, t, true);
            OneMoves(w, v, t) && t in v.pcs && Leads(w.pcs[t], v.pcs[t])
  {
    hide Advance, Inv;
    match w.pcs[t]
    case AcqMigrate(_, _) => MigrateStep(c, names, w, t);
    case AcqPool(_, _) => PoolStep(c, names, w, t);
    case AcqBind(_, _, _) => BindStep(c, names, w, t);
    case RelUnbind(_) => UnbindLeads(c, names, w, t);
    case RelPool(_) => RecycleStep(c, names, w, t);
    case RelDestroy(_) => DestroyStep(c, names, w, t);
    case _ =>
  }

  lemma LeadingPays(names: Names, w: World, v: World, t: Tid, cloneOk: bool, uid: u32)
    requires t in w.pcs && !IsMove(w.pcs[t]) && t in v.pcs && Leads(w.pcs[t], v.pcs[t])
    ensures Balanced(names, w, v, Go(t, cloneOk), t, uid)
  {
  }

  lemma GoBalances(c: Config, names: Names, w: World, t: Tid, cloneOk: bool, uid: u32)
    requires Inv(c, names, w) && t in w.pcs
    ensures Balanced(names, w, Advance(c, names, w, t, cloneOk), Go(t, cloneOk), t, uid)
    ensures OneMoves(w, Advance(c, names, w, t, cloneOk), t)
  {
    hide Advance, Inv, Balanced;
    if IsMove(w.pcs[t]) {
      MoveBalances(c, names, w, t, cloneOk, uid);
      MoveMovesOne(c, names, w, t, cloneOk);
    } else {
      OthersLead(c, names, w, t);
      ClonesOrNot(c, names, w, t, cloneOk);
      LeadingPays(names, w, Advance(c, names, w, t, true), t, cloneOk, uid);
    }
  }

  lemma MoveMovesOne(c: Config, names: Names, w: World, t: Tid, cloneOk: bool)
    requires Inv(c, names, w) && t in w.pcs && IsMove(w.pcs[t])
    ensures OneMoves(w, Advance(c, names, w, t, cloneOk), t)
  {
    hide Advance, Move, Next, BitsOk, OwnersOk, TablesOk, LockOk;
    assert AcquireOk(names, w, w.pcs[t]);
    AdvanceMoves(c, names, w, t, cloneOk);
    MovesOnlyMove(names, w, t, cloneOk);
  }

  lemma ClonesOrNot(c: Config, names: Names, w: World, t: Tid, cloneOk: bool)
    requires t in w.pcs && !IsMove(w.pcs[t])
    ensures Advance(c, names, w, t, cloneOk) == Advance(c, names, w, t, true)
  {
    hide PoolChoice, DoMigrate, DoBind, DoUnbind;
  }

  lemma ForeignBalances(names: Names, w: World, v: World, a: Action, t: Tid, uid: u32)
    requires t in w.pcs && t in v.pcs && v.pcs[t] == w.pcs[t] && a.Go? && a.t != t
    ensures Balanced(names, w, v, a, t, uid)
  {
    hide OwesTake, OwesLeave, EffectOf;
  }

  lemma CallBalances(c: Config, names: Names, w: World, a: Action, t: Tid, uid: u32)
    requires t in w.pcs && !a.Go?
    ensures Balanced(names, w, Act(c, names, w, a), a, t, uid)
  {
    hide EffectOf;
  }

  lemma ActBalances(c: Config, names: Names, w: World, a: Action, t: Tid, uid: u32)
    requires Inv(c, names, w) && t in w.pcs
    ensures Balanced(names, w, Act(c, names, w, a), a, t, uid)
  {
    hide Inv, Advance, Balanced;
    if !a.Go? {
      CallBalances(c, names, w, a, t, uid);
    } else {
      if a.t in w.pcs {
        GoBalances(c, names, w, a.t, a.cloneOk, uid);
      }
      if a.t != t {
        ForeignBalances(names, w, Act(c, names, w, a), a, t, uid);
      }
    }
  }

  // ---- every run ----

  /** Conservation: what a thread took under a uid, and what it still owes, are the acquires it began;
      what it left, and still owes, are the releases it began. */
  lemma {:induction false} EffectsAreCalls(c: Config, names: Names, w: World, actions: seq<Action>, t: Tid, uid: u32)
    requires Inv(c, names, w) && t in w.pcs
    ensures var v := Interleave(c, names, w, actions);
            && t in v.pcs
            && Takes(c, names, w, actions, t, uid) + Count(OwesTake(v.pcs[t], uid))
               == Acquires(c, names, w, actions, t, uid) + Count(OwesTake(w.pcs[t], uid))
            && Leaves(c, names, w, actions, t, uid) + Count(OwesLeave(v.pcs[t], uid))
               == Releases(c, names, w, actions, t, uid) + Count(OwesLeave(w.pcs[t], uid))
    decreases |actions|
  {
    hide Inv, Act, OwesTake, OwesLeave, TakesBy, LeavesBy, BeginsAcquire, BeginsRelease;
    if actions != [] {
      ActBalances(c, names, w, actions[0], t, uid);
      ActKeepsInv(c, names, w, actions[0]);
      EffectsAreCalls(c, names, Act(c, names, w, actions[0]), actions[1..], t, uid);
    }
  }

  /** Between an acquire and the moment its thread is idle again there is exactly one Take by the thread
      under the uid, whatever the other threads do meanwhile. */
  lemma OneTakePerAcquire(c: Config, names: Names, w: World, actions: seq<Action>, t: Tid, uid: u32)
    requires Inv(c, names, w) && t in w.pcs && w.pcs[t].Idle?
    requires actions != [] && actions[0] == CallAcquire(t, uid)
    requires Acquires(c, names, Act(c, names, w, actions[0]), actions[1..], t, uid) == 0
    ensures t in Interleave(c, names, w, actions).pcs
    ensures Interleave(c, names, w, actions).pcs[t].Idle? ==> Takes(c, names, w, actions, t, uid) == 1
  {
    hide Inv, Interleave, Takes, Act;
    EffectsAreCalls(c, names, w, actions, t, uid);
  }

  /** The same of a release and its Leave. */
  lemma OneLeavePerRelease(c: Config, names: Names, w: World, actions: seq<Action>, t: Tid, uid: u32)
    requires Inv(c, names, w) && t in w.pcs && w.pcs[t].Idle?
    requires actions != [] && actions[0] == CallRelease(t, uid)
    requires Releases(c, names, Act(c, names, w, actions[0]), actions[1..], t, uid) == 0
    ensures t in Interleave(c, names, w, actions).pcs
    ensures Interleave(c, names, w, actions).pcs[t].Idle? ==> Leaves(c, names, w, actions, t, uid) == 1
  {
    hide Inv, Interleave, Leaves, Act;
    EffectsAreCalls(c, names, w, actions, t, uid);
  }

  // ---- what an acquire answers ----

  lemma PoolAnswers(c: Config, names: Names, w: World, t: Tid)
    requires Inv(c, names, w) && t in w.pcs && w.pcs[t].AcqPool?
    ensures var v := Advance(c, names, w, t, true);
            t in v.pcs && (v.pcs[t].AcqNone? <==> names(w.pcs[t].uid) !in Leased(names, v))
  {
    hide Advance, PoolChoice, InPool, BitsOk, OwnersOk, TablesOk;
    assert AcquireOk(names, w, w.pcs[t]);
    HolderBinds(w, t);
    PoolStep(c, names, w, t);
  }

  lemma MigrateAnswers(c: Config, names: Names, w: World, t: Tid)
    requires Inv(c, names, w) && t in w.pcs && w.pcs[t].AcqMigrate?
    ensures var v := Advance(c, names, w, t, true);
            t in v.pcs && !v.pcs[t].AcqNone? && names(w.pcs[t].uid) in Leased(names, v)
  {
    hide Advance, BitsOk, OwnersOk, TablesOk, LockOk;
    MigrateStep(c, names, w, t);
  }

  lemma ServedAnswers(c: Config, names: Names, w: World, t: Tid, cloneOk: bool)
    requires Inv(c, names, w) && t in w.pcs && w.pcs[t].AcqPolicy? && Served(w.policy, names(w.pcs[t].uid))
    ensures var v := Advance(c, names, w, t, cloneOk);
            t in v.pcs && !v.pcs[t].AcqNone? && names(w.pcs[t].uid) in Leased(names, v)
  {
    hide BitsOk, OwnersOk, TablesOk, IsAnon;
    HolderBinds(w, t);
  }

  /** After its Take an acquire is on its way to answer nothing exactly when the Take has left its user
      without a lease. */
  lemma NothingIsAnsweredExactly(c: Config, names: Names, w: World, t: Tid, cloneOk: bool, uid: u32)
    requires Inv(c, names, w) && t in w.pcs && TakesBy(names, w, Go(t, cloneOk), t, uid)
    ensures var v := Advance(c, names, w, t, cloneOk);
            && t in v.pcs
            && (v.pcs[t].AcqNone? <==> names(uid) !in Meaning(names, v).leases)
  {
    hide Inv, Advance, Leased, Pending, Served;
    match w.pcs[t]
    case AcqMigrate(_, _) => ClonesOrNot(c, names, w, t, cloneOk); MigrateAnswers(c, names, w, t);
    case AcqPool(_, _) => ClonesOrNot(c, names, w, t, cloneOk); PoolAnswers(c, names, w, t);
    case AcqPolicy(_) => ServedAnswers(c, names, w, t, cloneOk);
    case _ =>
  }
}
