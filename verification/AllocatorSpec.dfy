/** What a lease says, as a value. */
module Leases {
  import opened Hosts

  /** What the table records about one user. */
  datatype LeaseRec = LeaseRec(uid: u32, ip: Host, fixed: bool, acquired: int)

  function WithoutUid(leases: map<string, LeaseRec>, uid: u32): map<string, LeaseRec> {
    map u | u in leases && leases[u].uid != uid :: leases[u]
  }

  predicate HasUid(leases: map<string, LeaseRec>, uid: u32) {
    exists u :: u in leases && leases[u].uid == uid
  }
}

/** The allocator in its simplest form: one map from users to leases and the policy in force.  There is
    no second index, no bitmap and no counter: an address is taken when a lease says so. */
module AllocatorSpec {
  import opened Hosts
  import opened Naming
  import opened Leases
  import opened YamlParser

  datatype Range = Range(lo: u32, hi: u32)

  /** Fixed at construction. */
  datatype Config = Config(pool: Option<Range>, poolName: string, timeout: nat, resolve: Resolver)

  datatype State = State(leases: map<string, LeaseRec>, policy: Policy)

  /** The pool list of a connection: possibly missing, with possibly missing names. */
  type PoolList = Option<seq<Option<string>>>

  /** What charon and the operator can do to the allocator, in any order. */
  datatype Op =
    | Acquire(pools: PoolList, sa: Option<Sa>, now: int, cloneOk: bool)
    | Release(sa: Option<Sa>)
    | Updown(sa: Option<Sa>, up: bool)
    | Sweep(now: int, alive: set<u32>)
    | Reload(file: Option<seq<Event>>)

  datatype Out = Address(ip: Option<Host>) | Answer(ok: bool) | Nothing

  // ---- addresses ----

  predicate InRange(r: Range, ip: Host) {
    r.lo <= HostToU32(ip) <= r.hi && ip == U32ToHost(HostToU32(ip))
  }

  predicate InPool(c: Config, ip: Host) {
    c.pool.Some? && InRange(c.pool.value, ip)
  }

  /** The addresses held by dynamic leases. */
  function Taken(leases: map<string, LeaseRec>): set<Host> {
    set u | u in leases && !leases[u].fixed :: leases[u].ip
  }

  /** The least address from `v` to `hi` that is not taken. */
  function FirstFree(v: int, hi: u32, taken: set<Host>): Option<Host>
    requires 0 <= v <= hi + 1
    decreases hi + 1 - v
  {
    if v > hi then None
    else if U32ToHost(v) !in taken then Some(U32ToHost(v))
    else FirstFree(v + 1, hi, taken)
  }

  /** The policy gives this user a fixed address, and the user does not look like a placeholder. */
  predicate Served(p: Policy, user: string) {
    user in p.users && !IsAnon(user)
  }

  /** The address for a user without a lease: its fixed one, else the least free one of the pool. */
  function Choose(c: Config, s: State, user: string): Option<(Host, bool)> {
    if Served(s.policy, user) then Some((s.policy.users[user], true))
    else if c.pool.None? || c.pool.value.lo > c.pool.value.hi then None
    else
      match FirstFree(c.pool.value.lo, c.pool.value.hi, Taken(s.leases))
      case None => None
      case Some(ip) => Some((ip, false))
  }

  // ---- operations ----

  predicate Claimed(c: Config, pools: PoolList) {
    pools.Some? && Some(c.poolName) in pools.value
  }

  function AcquireFor(c: Config, s: State, sa: Sa, now: int, cloneOk: bool): (State, Option<Host>) {
    var user := EffectiveName(sa);
    if user in s.leases then
      var l := s.leases[user];
      (s.(leases := s.leases[user := l.(uid := sa.uid, acquired := now)]), if cloneOk then Some(l.ip) else None)
    else
      match Choose(c, s, user)
      case None => (s, None)
      case Some((ip, fixed)) =>
        if cloneOk then (s.(leases := s.leases[user := LeaseRec(sa.uid, ip, fixed, now)]), Some(ip)) else (s, None)
  }

  predicate Orphan(c: Config, l: LeaseRec, now: int, alive: set<u32>) {
    now - l.acquired > c.timeout && l.uid !in alive
  }

  function Apply(c: Config, s: State, op: Op): (State, Out) {
    match op
    case Acquire(pools, sa, now, cloneOk) =>
      if !Claimed(c, pools) || sa.None? then (s, Address(None))
      else
        var (t, ip) := AcquireFor(c, s, sa.value, now, cloneOk);
        (t, Address(ip))
    case Release(None) => (s, Answer(false))
    case Release(Some(sa)) => (s.(leases := WithoutUid(s.leases, sa.uid)), Answer(HasUid(s.leases, sa.uid)))
    case Updown(sa, up) =>
      (if up || sa.None? then s else s.(leases := WithoutUid(s.leases, sa.value.uid)), Answer(true))
    case Sweep(now, alive) =>
      (s.(leases := map u | u in s.leases && !Orphan(c, s.leases[u], now, alive) :: s.leases[u]), Nothing)
    case Reload(file) =>
      match Load(c.resolve, file)
      case None => (s, Answer(false))
      case Some(p) => (s.(policy := p), Answer(true))
  }

  function Exec(c: Config, s: State, ops: seq<Op>): (State, seq<Out>)
    decreases |ops|
  {
    if ops == [] then (s, [])
    else
      var (t, o) := Apply(c, s, ops[0]);
      var (u, os) := Exec(c, t, ops[1..]);
      (u, [o] + os)
  }

  // ---- what every operation keeps ----

  /** Dynamic leases hold different addresses of the pool. */
  ghost predicate Wf(c: Config, s: State) {
    && (forall u | u in s.leases && !s.leases[u].fixed :: InPool(c, s.leases[u].ip))
    && (forall u, v | u in s.leases && v in s.leases && u != v && !s.leases[u].fixed && !s.leases[v].fixed ::
          s.leases[u].ip != s.leases[v].ip)
  }

  /** Each uid belongs to one SA, whose name is a function of the uid. */
  ghost predicate Named(names: u32 -> string, s: State) {
    forall u | u in s.leases :: names(s.leases[u].uid) == u
  }

  /** The environment keeps to the naming. */
  predicate Fits(names: u32 -> string, op: Op) {
    op.Acquire? && op.sa.Some? ==> EffectiveName(op.sa.value) == names(op.sa.value.uid)
  }

  predicate AllFit(names: u32 -> string, ops: seq<Op>) {
    forall i | 0 <= i < |ops| :: Fits(names, ops[i])
  }

  /** Another user's lease is held under the uid. */
  predicate HeldByAnother(leases: map<string, LeaseRec>, user: string, uid: u32) {
    exists u :: u in leases && u != user && leases[u].uid == uid
  }

  /** Granting this acquire takes a uid away from the lease of another user. */
  predicate Displaced(c: Config, s: State, sa: Sa) {
    var user := EffectiveName(sa);
    HeldByAnother(s.leases, user, sa.uid) && (user in s.leases || Choose(c, s, user).Some?)
  }

  predicate Displaces(c: Config, s: State, op: Op) {
    op.Acquire? && Claimed(c, op.pools) && op.sa.Some? && Displaced(c, s, op.sa.value)
  }

  /** No acquire of the run does. */
  predicate Undisplaced(c: Config, s: State, ops: seq<Op>)
    decreases |ops|
  {
    ops == [] || (!Displaces(c, s, ops[0]) && Undisplaced(c, Apply(c, s, ops[0]).0, ops[1..]))
  }

  lemma TakenAfterRemoval(c: Config, s: State, user: string)
    requires Wf(c, s) && user in s.leases
    ensures Taken(s.leases - {user})
         == if s.leases[user].fixed then Taken(s.leases) else Taken(s.leases) - {s.leases[user].ip}
  {
    var l, rest := s.leases[user], s.leases - {user};
    forall ip ensures ip in Taken(rest) <==> ip in Taken(s.leases) && (l.fixed || ip != l.ip) {
      if ip in Taken(s.leases) && (l.fixed || ip != l.ip) {
        var u :| u in s.leases && !s.leases[u].fixed && s.leases[u].ip == ip;
        assert u in rest;
      }
    }
  }

  lemma TakenAfterInsert(leases: map<string, LeaseRec>, user: string, l: LeaseRec)
    requires user !in leases
    ensures Taken(leases[user := l]) == Taken(leases) + if l.fixed then {} else {l.ip}
  {
    var more := leases[user := l];
    forall ip | ip in Taken(leases) ensures ip in Taken(more) {
      var u :| u in leases && !leases[u].fixed && leases[u].ip == ip;
      assert u in more && more[u] == leases[u];
    }
    if !l.fixed {
      assert user in more && more[user] == l;
    }
  }

  lemma {:induction false} FirstFreeIs(v: int, hi: u32, taken: set<Host>)
    requires 0 <= v <= hi + 1
    ensures FirstFree(v, hi, taken).None? <==> forall w: u32 | v <= w <= hi :: U32ToHost(w) in taken
    ensures FirstFree(v, hi, taken).Some? ==>
              var ip := FirstFree(v, hi, taken).value;
              var a := HostToU32(ip);
              v <= a <= hi && ip == U32ToHost(a) && ip !in taken && forall w: u32 | v <= w < a :: U32ToHost(w) in taken
    decreases hi + 1 - v
  {
    if v <= hi {
      U32RoundTrip(v);
      if U32ToHost(v) in taken {
        FirstFreeIs(v + 1, hi, taken);
      }
    }
  }

  /** The address chosen for a new dynamic lease belongs to the pool and to nobody else. */
  lemma ChoiceIsFree(c: Config, s: State, user: string)
    requires Choose(c, s, user).Some? && !Choose(c, s, user).value.1
    ensures InPool(c, Choose(c, s, user).value.0)
    ensures forall u | u in s.leases && !s.leases[u].fixed :: s.leases[u].ip != Choose(c, s, user).value.0
  {
    FirstFreeIs(c.pool.value.lo, c.pool.value.hi, Taken(s.leases));
  }

  lemma ApplyKeepsWf(c: Config, s: State, op: Op)
    requires Wf(c, s)
    ensures Wf(c, Apply(c, s, op).0)
  {
    hide FirstFree, InRange;
    if op.Acquire? && Claimed(c, op.pools) && op.sa.Some? {
      var user := EffectiveName(op.sa.value);
      if user !in s.leases && Choose(c, s, user).Some? && !Choose(c, s, user).value.1 {
        ChoiceIsFree(c, s, user);
      }
    }
  }

  lemma ApplyKeepsNamed(c: Config, names: u32 -> string, s: State, op: Op)
    requires Named(names, s) && Fits(names, op)
    ensures Named(names, Apply(c, s, op).0)
  {
  }

  /** An environment that keeps to one name for each uid never displaces a lease. */
  lemma {:induction false} NamedIsUndisplaced(c: Config, names: u32 -> string, s: State, ops: seq<Op>)
    requires Named(names, s) && AllFit(names, ops)
    ensures Undisplaced(c, s, ops)
    decreases |ops|
  {
    hide Apply, Choose, EffectiveName;
    if ops != [] {
      assert Fits(names, ops[0]);
      ApplyKeepsNamed(c, names, s, ops[0]);
      NamedIsUndisplaced(c, names, Apply(c, s, ops[0]).0, ops[1..]);
    }
  }

  lemma {:induction false} RunKeepsInvariants(c: Config, names: u32 -> string, s: State, ops: seq<Op>)
    requires Wf(c, s) && Named(names, s) && AllFit(names, ops)
    ensures Wf(c, Exec(c, s, ops).0) && Named(names, Exec(c, s, ops).0)
    decreases |ops|
  {
    if ops != [] {
      ApplyKeepsWf(c, s, ops[0]);
      ApplyKeepsNamed(c, names, s, ops[0]);
      RunKeepsInvariants(c, names, Apply(c, s, ops[0]).0, ops[1..]);
    }
  }
}
