/** The policy in force: a snapshot that a reload replaces as a whole. */
module PolicyEngines {
  import opened Hosts
  import opened FixedPools
  import opened YamlParser
  import YamlLoader

  class Snapshot {
    const fixed: FixedPool
    const poolStart: Option<Host>
    const poolEnd: Option<Host>
    ghost var freed: bool

    constructor (fixed: FixedPool, poolStart: Option<Host>, poolEnd: Option<Host>)
      ensures this.fixed == fixed && this.poolStart == poolStart && this.poolEnd == poolEnd && !freed
    {
      this.fixed := fixed;
      this.poolStart := poolStart;
      this.poolEnd := poolEnd;
      this.freed := false;
    }

    ghost predicate Valid()
      reads this, fixed
    {
      !freed && fixed.Valid()
    }

    ghost function View(): Policy
      reads fixed
    {
      Policy(fixed.users, poolStart, poolEnd)
    }

    /** `snapshot_destroy`: may be called once only. */
    method Destroy()
      requires !freed
      modifies this
      ensures freed
    {
      freed := true;
    }
  }

  /** `snapshot_load`: a fresh snapshot of what the file says, or nothing at all. */
  method SnapshotLoad(resolve: Resolver, file: Option<seq<Event>>) returns (s: Snapshot?)
    ensures s != null <==> file.Some? && ReadsToEnd(file.value)
    ensures s == null <==> Load(resolve, file).None?
    ensures s != null ==> fresh(s) && fresh(s.fixed) && s.Valid() && Some(s.View()) == Load(resolve, file)
  {
    var fixed := new FixedPool();
    LoadSucceedsExactly(resolve, file);
    var rc, start, end := YamlLoader.LoadPolicy(resolve, file, fixed);
    if rc != 0 {
      return null;
    }
    s := new Snapshot(fixed, start, end);
  }

  class PolicyEngine {
    var active: Snapshot
    const resolve: Resolver

    ghost predicate Valid()
      reads this, active, active.fixed
    {
      active.Valid()
    }

    ghost function View(): Policy
      reads this, active, active.fixed
    {
      active.View()
    }

    constructor (s: Snapshot, resolve: Resolver)
      requires s.Valid()
      ensures Valid() && active == s && this.resolve == resolve
    {
      this.active := s;
      this.resolve := resolve;
    }

    /** `policy_engine_create`: no usable file, no engine. */
    static method Create(resolve: Resolver, file: Option<seq<Event>>) returns (e: PolicyEngine?)
      ensures e != null <==> file.Some? && ReadsToEnd(file.value)
      ensures e == null <==> Load(resolve, file).None?
      ensures e != null ==> fresh(e) && fresh(e.active) && fresh(e.active.fixed)
      ensures e != null ==> e.Valid() && e.resolve == resolve && Some(e.View()) == Load(resolve, file)
    {
      var s := SnapshotLoad(resolve, file);
      if s == null {
        return null;
      }
      e := new PolicyEngine(s, resolve);
    }

    method LookupFixed(user: Option<string>) returns (ip: Option<Host>)
      requires Valid()
      ensures ip == if user.Some? && user.value in View().users then Some(View().users[user.value]) else None
    {
      if user.None? {
        return None;
      }
      ip := active.fixed.Lookup(user);
    }

    /** Both end points, or no pool. */
    method GetPool() returns (ok: bool, start: Option<Host>, end: Option<Host>)
      requires Valid()
      ensures ok <==> View().start.Some? && View().end.Some?
      ensures ok ==> start == View().start && end == View().end
      ensures !ok ==> start.None? && end.None?
    {
      if active.poolStart.None? || active.poolEnd.None? {
        return false, None, None;
      }
      return true, active.poolStart, active.poolEnd;
    }

    /** All or nothing: a file that cannot be read or parsed to its end leaves the policy in force
        untouched; otherwise the whole policy is replaced and the old snapshot destroyed. */
    method Reload(file: Option<seq<Event>>) returns (ok: bool)
      requires Valid()
      modifies this, active
      ensures Valid()
      ensures ok <==> file.Some? && ReadsToEnd(file.value)
      ensures ok <==> Load(resolve, file).Some?
      ensures View() == if ok then Load(resolve, file).value else old(View())
      ensures ok ==> fresh(active) && fresh(active.fixed) && old(active).freed
      ensures !ok ==> active == old(active) && unchanged(active)
    {
      var s := SnapshotLoad(resolve, file);
      if s == null {
        return false;
      }
      var old_ := active;
      active := s;
      old_.Destroy();
      return true;
    }
  }
}
