/** Addresses in interleaved runs: live leases never share one, fixed or dynamic, whatever the policies
    between which the allocator was reloaded. */
module InterleavedAddresses {
  import opened Naming
  import opened YamlParser
  import opened AllocatorSpec
  import opened AllocatorRuns
  import opened Interleaving
  import opened InterleavedRuns
  import opened Atomicity

  /** The simple allocator with an arbitrary policy of the set in force. */
  function AsState(s: Simple, p: Policy): State {
    State(s.leases, p)
  }

  ghost predicate Sound(c: Config, policies: set<Policy>, s: Simple, p: Policy) {
    Wf(c, AsState(s, p)) && Granted(c, policies, AsState(s, p))
  }

  predicate AsksOnly(policies: set<Policy>, e: Effect) {
    e.Take? ==> e.asked in policies
  }

  lemma HappenKeepsSound(c: Config, names: Names, policies: set<Policy>, s: Simple, p: Policy, e: Effect)
    requires Sound(c, policies, s, p) && AsksOnly(policies, e)
    ensures Sound(c, policies, Happen(c, names, s, e), p)
  {
    hide PoolChoice, IsAnon, InPool;
    if e.Take? {
      if Served(e.asked, names(e.uid)) {
        assert GrantedFixed(policies, names(e.uid), e.asked.users[names(e.uid)]);
      } else if PoolChoice(c, Taken(s.leases) + s.limbo).Some? {
        PoolChoiceIsFree(c, Taken(s.leases) + s.limbo);
        forall u | u in s.leases && !s.leases[u].fixed ensures s.leases[u].ip in Taken(s.leases) {
        }
      }
    }
  }

  lemma {:induction false} HappenAllKeepsSound(c: Config, names: Names, policies: set<Policy>, s: Simple, p: Policy,
                                               es: seq<Effect>)
    requires Sound(c, policies, s, p) && forall e | e in es :: AsksOnly(policies, e)
    ensures Sound(c, policies, HappenAll(c, names, s, es), p)
    decreases |es|
  {
    hide Sound, AsksOnly, Happen;
    if es != [] {
      assert AsksOnly(policies, es[0]);
      HappenKeepsSound(c, names, policies, s, p, es[0]);
      HappenAllKeepsSound(c, names, policies, Happen(c, names, s, es[0]), p, es[1..]);
    }
  }

  /** Every policy that a thread consulted, or can consult, is one of the set. */
  ghost predicate Consults(policies: set<Policy>, w: World) {
    w.policy in policies && forall t | t in w.pcs && w.pcs[t].AcqPool? :: w.pcs[t].asked in policies
  }

  ghost predicate ReloadsOnly(policies: set<Policy>, actions: seq<Action>) {
    forall i | 0 <= i < |actions| && actions[i].ReloadTo? :: actions[i].policy in policies
  }

  lemma MoveConsults(c: Config, names: Names, policies: set<Policy>, w: World, t: Tid, cloneOk: bool)
    requires Inv(c, names, w) && Consults(policies, w) && t in w.pcs && IsMove(w.pcs[t])
    ensures Consults(policies, Advance(c, names, w, t, cloneOk))
  {
    hide Advance, Move, Next, BitsOk, OwnersOk, TablesOk, LockOk;
    assert AcquireOk(names, w, w.pcs[t]);
    AdvanceMoves(c, names, w, t, cloneOk);
    MovesOnlyMove(names, w, t, cloneOk);
    NextOfPolicy(names, w, w.pcs[t], cloneOk);
  }

  lemma UnbindConsults(c: Config, names: Names, policies: set<Policy>, w: World, t: Tid)
    requires Inv(c, names, w) && Consults(policies, w) && t in w.pcs && w.pcs[t].RelUnbind?
    ensures Consults(policies, Advance(c, names, w, t, true))
  {
    hide BitsOk, OwnersOk, LockOk;
  }

  lemma AdvanceConsults(c: Config, names: Names, policies: set<Policy>, w: World, t: Tid, cloneOk: bool)
    requires Inv(c, names, w) && Consults(policies, w) && t in w.pcs
    ensures Consults(policies, Advance(c, names, w, t, cloneOk))
  {
    var pc := w.pcs[t];
    if IsMove(pc) {
      MoveConsults(c, names, policies, w, t, cloneOk);
    } else if pc.RelUnbind? {
      UnbindConsults(c, names, policies, w, t);
    } else {
      OtherConsults(c, names, policies, w, t);
    }
  }

  lemma OtherConsults(c: Config, names: Names, policies: set<Policy>, w: World, t: Tid)
    requires Inv(c, names, w) && Consults(policies, w) && t in w.pcs && !IsMove(w.pcs[t]) && !w.pcs[t].RelUnbind?
    ensures Consults(policies, Advance(c, names, w, t, true))
  {
    hide Advance, Inv;
    match w.pcs[t]
    case AcqMigrate(_, _) => MigrateStep(c, names, w, t);
    case AcqPool(_, _) => PoolStep(c, names, w, t);
    case AcqBind(_, _, _) => BindStep(c, names, w, t);
    case RelPool(_) => RecycleStep(c, names, w, t);
    case RelDestroy(_) => DestroyStep(c, names, w, t);
    case _ =>
  }

  lemma ActConsults(c: Config, names: Names, policies: set<Policy>, w: World, a: Action)
    requires Inv(c, names, w) && Consults(policies, w) && (a.ReloadTo? ==> a.policy in policies)
    ensures Consults(policies, Act(c, names, w, a))
  {
    hide Advance, Inv;
    if a.Go? && a.t in w.pcs {
      AdvanceConsults(c, names, policies, w, a.t, a.cloneOk);
    }
  }

  lemma EffectAsksOnly(names: Names, policies: set<Policy>, w: World, a: Action)
    requires Consults(policies, w)
    ensures forall e | e in EffectOf(names, w, a) :: AsksOnly(policies, e)
  {
    hide Served;
  }

  lemma {:induction false} EffectsAskOnly(c: Config, names: Names, policies: set<Policy>, w: World,
                                          actions: seq<Action>)
    requires Inv(c, names, w) && Consults(policies, w) && ReloadsOnly(policies, actions)
    ensures forall e | e in Effects(c, names, w, actions) :: AsksOnly(policies, e)
    decreases |actions|
  {
    hide Inv, Consults, AsksOnly, Act, EffectOf;
    if actions != [] {
      EffectAsksOnly(names, policies, w, actions[0]);
      ActConsults(c, names, policies, w, actions[0]);
      ActKeepsInv(c, names, w, actions[0]);
      EffectsAskOnly(c, names, policies, Act(c, names, w, actions[0]), actions[1..]);
    }
  }

  /** What every lease stands for at the end of a run from an empty allocator. */
  lemma RunIsSound(c: Config, names: Names, policies: set<Policy>, w: World, actions: seq<Action>)
    requires Init(w) && w.policy in policies && ReloadsOnly(policies, actions)
    ensures Inv(c, names, Interleave(c, names, w, actions))
    ensures Sound(c, policies, Meaning(names, Interleave(c, names, w, actions)), w.policy)
  {
    hide Interleave, Effects, HappenAll, Sound, Inv;
    InitInv(c, names, w);
    InterleavingKeepsInv(c, names, w, actions);
    EffectsAskOnly(c, names, policies, w, actions);
    InitSound(c, names, policies, w);
    HappenAllKeepsSound(c, names, policies, Meaning(names, w), w.policy, Effects(c, names, w, actions));
    RunIsItsEffects(c, names, w, actions);
  }

  /** If the policies of a run never give one address to two users and none of the pool to anyone, then
      in every interleaving of it any two leases in the table have different addresses, at every point. */
  lemma InterleavedAddressesNeverClash(c: Config, names: Names, policies: set<Policy>, w: World, actions: seq<Action>)
    requires Init(w) && w.policy in policies && ReloadsOnly(policies, actions) && ConflictFree(c, policies)
    ensures var v := Interleave(c, names, w, actions);
            forall k, l | k in v.heap && l in v.heap && k != l && InTable(v, k) && InTable(v, l) ::
              v.heap[k].ip != v.heap[l].ip
  {
    hide ConflictFree, Interleave, Granted, Wf, Inv, Init;
    var v := Interleave(c, names, w, actions);
    RunIsSound(c, names, policies, w, actions);
    GrantedIsDistinct(c, policies, AsState(Meaning(names, v), w.policy));
    TableIsDistinct(c, names, v, w.policy);
  }

  /** Under the same condition a fixed address is kept for its user: in every interleaving no lease in the
      table has an address that one of the policies fixes for another user, and no acquire is about to
      bind one, whether that user is connected or not. */
  lemma InterleavedFixedAddressIsReserved(c: Config, names: Names, policies: set<Policy>, w: World,
                                          actions: seq<Action>, p: Policy, user: string)
    requires Init(w) && w.policy in policies && ReloadsOnly(policies, actions) && ConflictFree(c, policies)
    requires p in policies && Served(p, user)
    ensures var v := Interleave(c, names, w, actions);
            && (forall l | l in v.heap && InTable(v, l) && v.heap[l].user != user :: v.heap[l].ip != p.users[user])
            && (forall t | t in v.pcs && v.pcs[t].AcqBind? && names(v.pcs[t].uid) != user ::
                 v.pcs[t].ip != p.users[user])
  {
    hide ConflictFree, Interleave, Granted, Wf, Inv, Init, IsAnon, InTable;
    var v := Interleave(c, names, w, actions);
    RunIsSound(c, names, policies, w, actions);
    forall l | l in v.heap && InTable(v, l) && v.heap[l].user != user ensures v.heap[l].ip != p.users[user] {
      TabledMeans(c, names, v, l);
      LeaseIsReserved(c, policies, Meaning(names, v), w.policy, v.heap[l].user, p, user);
    }
    forall t | t in v.pcs && v.pcs[t].AcqBind? && names(v.pcs[t].uid) != user ensures v.pcs[t].ip != p.users[user] {
      BindingMeans(c, names, v, t);
      LeaseIsReserved(c, policies, Meaning(names, v), w.policy, names(v.pcs[t].uid), p, user);
    }
  }

  lemma LeaseIsReserved(c: Config, policies: set<Policy>, s: Simple, start: Policy, holder: string, p: Policy,
                        user: string)
    requires ConflictFree(c, policies) && Sound(c, policies, s, start)
    requires holder in s.leases && holder != user && p in policies && Served(p, user)
    ensures s.leases[holder].ip != p.users[user]
  {
    hide InRange, IsAnon;
    if s.leases[holder].fixed {
      assert GrantedFixed(policies, holder, s.leases[holder].ip);
    }
  }

  lemma TabledMeans(c: Config, names: Names, w: World, l: Lid)
    requires Inv(c, names, w) && l in w.heap && InTable(w, l)
    ensures var user := w.heap[l].user;
            user in Meaning(names, w).leases && Meaning(names, w).leases[user].ip == w.heap[l].ip
  {
    hide BitsOk, OwnersOk, LockOk, TablesOk, Pending;
    assert Binding(w) ==> AcquireOk(names, w, w.pcs[w.lock.value]);
  }

  lemma BindingMeans(c: Config, names: Names, w: World, t: Tid)
    requires Inv(c, names, w) && t in w.pcs && w.pcs[t].AcqBind?
    ensures var user := names(w.pcs[t].uid);
            user in Meaning(names, w).leases && Meaning(names, w).leases[user].ip == w.pcs[t].ip
  {
    hide BitsOk, OwnersOk, TablesOk, Pending;
    HolderBinds(w, t);
  }

  lemma InitSound(c: Config, names: Names, policies: set<Policy>, w: World)
    requires Init(w) && w.policy in policies
    ensures Sound(c, policies, Meaning(names, w), w.policy)
  {
    assert Leased(names, w) == map[];
  }

  lemma TableIsDistinct(c: Config, names: Names, w: World, p: Policy)
    requires Inv(c, names, w) && Distinct(AsState(Meaning(names, w), p))
    ensures forall k, l | k in w.heap && l in w.heap && k != l && InTable(w, k) && InTable(w, l) ::
              w.heap[k].ip != w.heap[l].ip
  {
    hide Inv, Meaning;
    forall k, l | k in w.heap && l in w.heap && k != l && InTable(w, k) && InTable(w, l)
      ensures w.heap[k].ip != w.heap[l].ip {
      TabledMeans(c, names, w, k);
      TabledMeans(c, names, w, l);
    }
  }
}
