/** The environment: charon and the operator call into the allocator, one event after the other. */
module Charon {
  import opened Hosts
  import opened Naming
  import opened Sessions
  import opened AllocatorSpec
  import opened IpAllocators

  class EventListener {
    const allocator: IpAllocator

    constructor (allocator: IpAllocator)
      ensures this.allocator == allocator
    {
      this.allocator := allocator;
    }

    /** `ike_updown`: going down releases the lease of the SA; the listener always stays registered. */
    method IkeUpdown(sa: Option<Sa>, up: bool) returns (keep: bool)
      requires allocator.Valid()
      modifies allocator.sessions, allocator.sessions.byUser.Values, allocator.PoolParts()
      ensures allocator.Valid() && keep
      ensures (allocator.Abs(), Answer(keep)) == Apply(allocator.Conf(), old(allocator.Abs()), Updown(sa, up))
      ensures allocator.sessions.byUser.Values <= old(allocator.sessions.byUser.Values)
    {
      if !up && sa.Some? {
        var _ := allocator.ReleaseByUidImpl(sa.value.uid);
      }
      return true;
    }
  }

  /** One event: its answer and the new state are those of the specification.  The allocator stays valid
      exactly when no uid is taken away from another user. */
  method Handle(a: IpAllocator, op: Op) returns (out: Out)
    requires a.Valid()
    modifies a.policy, a.policy.active, a.sessions, a.sessions.byUser.Values, a.PoolParts()
    ensures a.Sane() && (a.Valid() <==> !Displaces(a.Conf(), old(a.Abs()), op))
    ensures (a.Abs(), out) == Apply(a.Conf(), old(a.Abs()), op)
    ensures fresh({a.policy.active} - old({a.policy.active}))
    ensures fresh(a.sessions.byUser.Values - old(a.sessions.byUser.Values))
  {
    hide IpAllocator.Sane, IpAllocator.Abs, Displaced, Apply, EffectiveName, SessionManager.Coherent;
    match op {
      case Acquire(pools, sa, now, cloneOk) =>
        var r := a.AcquireAddress(pools, sa, now, cloneOk);
        return Address(r);
      case Release(sa) =>
        var ok := a.ReleaseAddress(sa);
        return Answer(ok);
      case Updown(sa, up) =>
        var listener := new EventListener(a);
        var keep := listener.IkeUpdown(sa, up);
        return Answer(keep);
      case Sweep(now, alive) =>
        a.Sweep(now, alive);
        return Nothing;
      case Reload(file) =>
        var ok := a.ReloadPolicy(file);
        return Answer(ok);
    }
  }

  /** Any sequence of events that takes no uid away from another user's lease: the bitmap, the counter, the
      two indices, the leases and the snapshot together answer what one map of leases and one policy would
      answer. */
  method Serve(a: IpAllocator, ops: seq<Op>) returns (outs: seq<Out>)
    requires a.Valid() && Undisplaced(a.Conf(), a.Abs(), ops)
    modifies a.policy, a.policy.active, a.sessions, a.sessions.byUser.Values, a.PoolParts()
    ensures a.Valid()
    ensures (a.Abs(), outs) == Exec(a.Conf(), old(a.Abs()), ops)
    decreases |ops|
  {
    if ops == [] {
      return [];
    }
    var out := Handle(a, ops[0]);
    var rest := Serve(a, ops[1..]);
    return [out] + rest;
  }
}
