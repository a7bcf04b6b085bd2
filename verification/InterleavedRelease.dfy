/** Stability and harmless release for threads: what the runs of calls in a row promise a user holds in
    every interleaving. */
module InterleavedRelease {
  import opened Hosts
  import opened Leases
  import opened AllocatorSpec
  import opened Interleaving
  import opened InterleavedRuns
  import opened Atomicity

  // ---- a user's address is stable ----

  /** No effect is a Leave of the uid that the user holds at that moment. */
  predicate SparedBy(c: Config, names: Names, s: Simple, es: seq<Effect>, user: string)
    requires user in s.leases
    decreases |es|
  {
    es == [] ||
    (&& es[0] != Leave(s.leases[user].uid)
     && (user in Happen(c, names, s, es[0]).leases ==> SparedBy(c, names, Happen(c, names, s, es[0]), es[1..], user)))
  }

  lemma SparedEffect(c: Config, names: Names, s: Simple, e: Effect, user: string)
    requires user in s.leases && e != Leave(s.leases[user].uid)
    ensures var t := Happen(c, names, s, e);
            user in t.leases && t.leases[user].ip == s.leases[user].ip && t.leases[user].fixed == s.leases[user].fixed
  {
    hide PoolChoice, Served, Taken;
  }

  lemma {:induction false} SparedEffects(c: Config, names: Names, s: Simple, es: seq<Effect>, user: string)
    requires user in s.leases && SparedBy(c, names, s, es, user)
    ensures var t := HappenAll(c, names, s, es);
            user in t.leases && t.leases[user].ip == s.leases[user].ip && t.leases[user].fixed == s.leases[user].fixed
    decreases |es|
  {
    hide Happen;
    if es != [] {
      SparedEffect(c, names, s, es[0], user);
      SparedEffects(c, names, Happen(c, names, s, es[0]), es[1..], user);
    }
  }

  /** As long as no release takes effect under the uid that a user holds, the user keeps the address in
      every interleaving, whatever the other threads do; and each acquire by the user that is about to
      answer at the end answers it. */
  lemma InterleavedAddressIsStable(c: Config, names: Names, w: World, actions: seq<Action>, user: string)
    requires Inv(c, names, w) && user in Meaning(names, w).leases
    requires SparedBy(c, names, Meaning(names, w), Effects(c, names, w, actions), user)
    ensures var v, ip := Interleave(c, names, w, actions), Meaning(names, w).leases[user].ip;
            && user in Meaning(names, v).leases && Meaning(names, v).leases[user].ip == ip
            && forall t | t in v.pcs && (v.pcs[t].AcqReuse? || v.pcs[t].AcqClone?) && names(v.pcs[t].uid) == user ::
                 v.pcs[t].lid in v.heap && v.heap[v.pcs[t].lid].ip == ip
  {
    hide Inv, Meaning, Interleave, Effects, SparedBy, HappenAll;
    var v := Interleave(c, names, w, actions);
    RunIsItsEffects(c, names, w, actions);
    SparedEffects(c, names, Meaning(names, w), Effects(c, names, w, actions), user);
    InterleavingKeepsInv(c, names, w, actions);
    forall t | t in v.pcs && (v.pcs[t].AcqReuse? || v.pcs[t].AcqClone?) && names(v.pcs[t].uid) == user
      ensures v.pcs[t].lid in v.heap && v.heap[v.pcs[t].lid].ip == Meaning(names, w).leases[user].ip {
      AnswerIsRecorded(c, names, v, t);
    }
  }

  // ---- releasing again ----

  lemma GoneEffect(c: Config, names: Names, s: Simple, e: Effect, uid: u32)
    requires !HasUid(s.leases, uid) && !(e.Take? && e.uid == uid)
    ensures !HasUid(Happen(c, names, s, e).leases, uid)
  {
    hide PoolChoice, Served, Taken;
  }

  lemma {:induction false} GoneEffects(c: Config, names: Names, s: Simple, es: seq<Effect>, uid: u32)
    requires !HasUid(s.leases, uid) && forall e | e in es :: !(e.Take? && e.uid == uid)
    ensures !HasUid(HappenAll(c, names, s, es).leases, uid)
    decreases |es|
  {
    hide Happen, HasUid;
    if es != [] {
      GoneEffect(c, names, s, es[0], uid);
      GoneEffects(c, names, Happen(c, names, s, es[0]), es[1..], uid);
    }
  }

  /** A Leave of a uid ends it, when each uid has its one name. */
  lemma LeaveEnds(c: Config, names: Names, s: Simple, uid: u32)
    requires forall u | u in s.leases :: names(s.leases[u].uid) == u
    ensures !HasUid(Happen(c, names, s, Leave(uid)).leases, uid)
  {
  }

  lemma MeaningIsNamed(c: Config, names: Names, w: World)
    requires Inv(c, names, w)
    ensures forall u | u in Meaning(names, w).leases :: names(Meaning(names, w).leases[u].uid) == u
  {
    hide BitsOk, OwnersOk, LockOk, Pending;
  }

  /** Releasing again is harmless in every interleaving: once no lease has the uid, and no acquire takes
      effect under it any more, a release of it finds nothing, unbinds nothing and leaves leases, pool and
      heap alone, whoever has the old address by then. */
  lemma InterleavedReleaseIsHarmless(c: Config, names: Names, w: World, actions: seq<Action>, t: Tid, uid: u32)
    requires Inv(c, names, w) && !HasUid(Meaning(names, w).leases, uid)
    requires forall e | e in Effects(c, names, w, actions) :: !(e.Take? && e.uid == uid)
    requires t in Interleave(c, names, w, actions).pcs && Interleave(c, names, w, actions).pcs[t] == RelUnbind(uid)
    ensures var v := Interleave(c, names, w, actions);
            && Advance(c, names, v, t, true) == Goto(v, t, RelUnlock(None))
            && Meaning(names, Advance(c, names, v, t, true)) == Meaning(names, v)
  {
    hide Inv, Meaning, Interleave, Effects, HasUid, HappenAll;
    var v := Interleave(c, names, w, actions);
    RunIsItsEffects(c, names, w, actions);
    GoneEffects(c, names, Meaning(names, w), Effects(c, names, w, actions), uid);
    InterleavingKeepsInv(c, names, w, actions);
    FindsNothing(c, names, v, t, uid);
    NothingLeaves(c, names, Meaning(names, v), uid);
    UnbindIsLeave(c, names, v, t);
  }

  lemma NothingLeaves(c: Config, names: Names, s: Simple, uid: u32)
    requires !HasUid(s.leases, uid)
    ensures Happen(c, names, s, Leave(uid)) == s
  {
  }

  lemma FindsNothing(c: Config, names: Names, w: World, t: Tid, uid: u32)
    requires Inv(c, names, w) && t in w.pcs && w.pcs[t] == RelUnbind(uid) && !HasUid(Meaning(names, w).leases, uid)
    ensures Advance(c, names, w, t, true) == Goto(w, t, RelUnlock(None))
  {
    hide BitsOk, OwnersOk, Pending;
    HolderBinds(w, t);
    TabledUid(names, w, uid);
  }

  lemma TabledUid(names: Names, w: World, uid: u32)
    requires TablesOk(names, w)
    ensures uid in w.byUid ==> HasUid(Tabled(w), uid)
  {
    if uid in w.byUid {
      assert w.heap[w.byUid[uid]].user in Tabled(w);
    }
  }

  /** A first release, then anything but an acquire under the uid, then a second release: the second one
      is harmless. */
  lemma SecondInterleavedRelease(c: Config, names: Names, w: World, t: Tid, uid: u32, actions: seq<Action>, s: Tid)
    requires Inv(c, names, w) && t in w.pcs && w.pcs[t] == RelUnbind(uid)
    requires var first := Advance(c, names, w, t, true);
             forall e | e in Effects(c, names, first, actions) :: !(e.Take? && e.uid == uid)
    requires var v := Interleave(c, names, Advance(c, names, w, t, true), actions);
             s in v.pcs && v.pcs[s] == RelUnbind(uid)
    ensures var v := Interleave(c, names, Advance(c, names, w, t, true), actions);
            Advance(c, names, v, s, true) == Goto(v, s, RelUnlock(None))
  {
    hide Inv, Meaning, Interleave, Effects, HasUid, Happen, Advance;
    MeaningIsNamed(c, names, w);
    LeaveEnds(c, names, Meaning(names, w), uid);
    UnbindIsLeave(c, names, w, t);
    AdvanceKeepsInv(c, names, w, t, true);
    InterleavedReleaseIsHarmless(c, names, Advance(c, names, w, t, true), actions, s, uid);
  }
}
