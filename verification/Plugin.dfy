/** The plugin object itself.  Its methods are what the loader and the worker run; each is tied to the
    steps of PluginLifecycle that it consists of when nobody interrupts it. */
module Plugins {
  import opened Hosts
  import opened DynamicPools
  import opened PolicyEngines
  import opened AllocatorSpec
  import opened IpAllocators
  import opened PoolCoupling
  import opened Sessions
  import opened PluginLifecycle

  class UserPolicyPlugin {
    const allocator: IpAllocator
    var refcnt: int
    var terminating: bool
    /** charon has the allocator among its address providers, and the listener on its bus. */
    var providing: bool
    var listening: bool
    ghost var freed: nat

    /** The fields are those of a state of the protocol in which nothing went wrong. */
    ghost predicate Shows(s: System)
      reads this
    {
      s.refcnt == refcnt && s.terminating == terminating && s.freed == freed && !s.fault
    }

    ghost predicate LeasesDestroyed()
      reads allocator.sessions, allocator.sessions.byUser.Values
    {
      forall u | u in allocator.sessions.byUser :: allocator.sessions.byUser[u].freed
    }

    constructor (allocator: IpAllocator)
      ensures this.allocator == allocator && refcnt == 1 && !terminating && !providing && !listening && freed == 0
      ensures forall s | Fresh(s) :: Shows(s)
    {
      this.allocator := allocator;
      this.refcnt := 1;
      this.terminating := false;
      this.providing := false;
      this.listening := false;
      this.freed := 0;
    }

    /** `user_policy_plugin_create`: without a usable policy, or when allocator or listener cannot be
        created, no plugin; otherwise an allocator without leases under that policy, fit for use exactly
        when its pool, if any, is representable. */
    static method Create(resolve: YamlParser.Resolver, file: Option<seq<YamlParser.Event>>,
                         poolName: Option<string>, leaseTimeout: u32, allocatorOk: bool, listenerOk: bool)
      returns (p: UserPolicyPlugin?)
      ensures p == null <==> YamlParser.Load(resolve, file).None? || !allocatorOk || !listenerOk
      ensures p != null ==>
                && p.allocator.poolName == (if poolName.Some? then poolName.value else "cupp")
                && p.allocator.leaseTimeout == (if leaseTimeout != 0 then leaseTimeout else 3600)
                && p.allocator.policy.resolve == resolve
      ensures p != null ==>
                var policy := YamlParser.Load(resolve, file).value;
                && (p.allocator.dyn != null <==>
                      && policy.start.Some? && policy.end.Some?
                      && policy.start.value.family == Inet && policy.end.value.family == Inet
                      && HostToU32(policy.start.value) <= HostToU32(policy.end.value))
                && (p.allocator.dyn != null ==>
                      && p.allocator.dyn.startH == HostToU32(policy.start.value)
                      && p.allocator.dyn.endH == HostToU32(policy.end.value))
      ensures p != null ==>
                && fresh(p) && (forall s | Fresh(s) :: p.Shows(s)) && !p.providing && !p.listening
                && p.allocator.Abs() == State(map[], YamlParser.Load(resolve, file).value)
                && (p.allocator.Valid() <==>
                      p.allocator.dyn == null || Representable(p.allocator.dyn.startH, p.allocator.dyn.endH))
    {
      hide IpAllocator.Valid, IpAllocator.Abs, PolicyEngine.Valid, PolicyEngine.View, Representable;
      var policy := PolicyEngine.Create(resolve, file);
      if policy == null || !allocatorOk {
        return null;
      }
      var allocator := IpAllocator.Create(policy, poolName, leaseTimeout);
      if !listenerOk {
        allocator.Destroy();
        return null;
      }
      p := new UserPolicyPlugin(allocator);
    }

    method Ref()
      requires freed == 0 && allocator.Valid()
      modifies `refcnt
      ensures refcnt == old(refcnt) + 1
      ensures allocator.Valid() && allocator.Abs() == old(allocator.Abs())
    {
      hide Sound, SessionManager.Valid, SessionManager.Coherent, SessionManager.Table, Snapshot.Valid;
      hide DynamicPool.Valid, DynamicPool.Busy;
      refcnt := refcnt + 1;
    }

    /** `plugin_destroy_internal`: with the allocator go all leases. */
    method DestroyInternal()
      requires freed == 0 && allocator.Valid()
      modifies `freed, allocator.sessions.byUid.Values
      ensures freed == 1 && LeasesDestroyed()
    {
      allocator.Destroy();
      freed := freed + 1;
    }

    /** The critical section of `plugin_unref`. */
    method Drop() returns (last: bool)
      requires freed == 0 && allocator.Valid()
      modifies `refcnt
      ensures refcnt == old(refcnt) - 1 && (last <==> old(refcnt) <= 1)
      ensures allocator.Valid() && allocator.Abs() == old(allocator.Abs())
    {
      hide Sound, SessionManager.Valid, SessionManager.Coherent, SessionManager.Table, Snapshot.Valid;
      hide DynamicPool.Valid, DynamicPool.Busy;
      refcnt := refcnt - 1;
      last := refcnt <= 0;
    }

    /** `plugin_unref`: the last one to go destroys everything; before that nothing is touched. */
    method Unref()
      requires freed == 0 && allocator.Valid()
      modifies `refcnt, `freed, allocator.sessions.byUid.Values
      ensures refcnt == old(refcnt) - 1
      ensures old(refcnt) > 1 ==> freed == 0 && allocator.Valid() && allocator.Abs() == old(allocator.Abs())
      ensures old(refcnt) <= 1 ==> freed == 1 && LeasesDestroyed()
    {
      hide IpAllocator.Valid, IpAllocator.Abs, LeasesDestroyed;
      var last := Drop();
      if last {
        DestroyInternal();
      }
    }

    /** `add_provider` and `add_listener`. */
    method Announce()
      requires allocator.Valid()
      modifies `providing, `listening
      ensures providing && listening
      ensures allocator.Valid() && allocator.Abs() == old(allocator.Abs())
    {
      hide Sound, SessionManager.Valid, SessionManager.Coherent, SessionManager.Table, Snapshot.Valid;
      hide DynamicPool.Valid, DynamicPool.Busy;
      providing := true;
      listening := true;
    }

    /** `plugin_cb(TRUE)`: charon gets to know provider and listener; the job, if it can be created, holds a
        reference of its own. */
    method Register(jobCreated: bool, ghost s: System)
      requires Inv(s) && Shows(s) && s.loader.Loaded? && allocator.Valid()
      modifies `providing, `listening, `refcnt, `freed, allocator.sessions.byUid.Values
      ensures providing && listening
      ensures refcnt == old(refcnt) + if jobCreated then 1 else 0
      ensures freed == 0 && allocator.Valid() && allocator.Abs() == old(allocator.Abs())
      ensures Shows(AfterRegister(s, jobCreated))
    {
      Registering(s, jobCreated);
      hide Inv, AfterRegister, IpAllocator.Valid, IpAllocator.Abs, LeasesDestroyed;
      Announce();
      Ref();
      if !jobCreated {
        Unref();
      }
    }

    /** `plugin_cb(FALSE)`: charon forgets provider and listener; once a sweep that is running has ended,
        the flag is set. */
    method Unregister(ghost s: System)
      requires Inv(s) && Shows(s) && s.loader.Registered?
      modifies `providing, `listening, `terminating
      ensures terminating && !providing && !listening
      ensures Shows(AfterUnregister(s)) && AfterUnregister(s).loader.Unregistered?
    {
      Unregistering(s);
      hide Inv, AfterUnregister;
      providing := false;
      listening := false;
      terminating := true;
    }

    /** The sweep itself: of the plugin nothing changes. */
    method RunSweep(now: int, alive: set<u32>)
      requires allocator.Valid()
      modifies allocator.sessions, allocator.sessions.byUser.Values, allocator.PoolParts()
      ensures allocator.Valid()
      ensures allocator.Abs() == Apply(allocator.Conf(), old(allocator.Abs()), AllocatorSpec.Sweep(now, alive)).0
    {
      hide Apply, IpAllocator.Valid, IpAllocator.Abs, IpAllocator.Conf;
      allocator.Sweep(now, alive);
    }

    /** `sweep_cb`: sweeps and asks to be called again unless the plugin is terminating. */
    method SweepCb(now: int, alive: set<u32>, ghost s: System) returns (again: bool)
      requires Inv(s) && Shows(s) && s.job.Queued? && !s.loader.Marking? && allocator.Valid()
      modifies allocator.sessions, allocator.sessions.byUser.Values, allocator.PoolParts()
      ensures again == !terminating
      ensures allocator.Valid()
      ensures terminating ==> allocator.Abs() == old(allocator.Abs())
      ensures !terminating ==>
                allocator.Abs() == Apply(allocator.Conf(), old(allocator.Abs()), AllocatorSpec.Sweep(now, alive)).0
      ensures var t := AfterCallback(s);
              Shows(t) && t.job == (if again then Again else Ended) && t.sweepLock == s.sweepLock
    {
      Uninterrupted(s);
      hide Inv, AfterCallback, Apply, IpAllocator.Valid, IpAllocator.Abs, IpAllocator.Conf;
      if terminating {
        return false;
      }
      if !terminating {
        RunSweep(now, alive);
      }
      return !terminating;
    }

    /** `sweep_cleanup`. */
    method SweepCleanup(ghost s: System)
      requires Inv(s) && Shows(s) && s.job.Ended? && allocator.Valid()
      modifies `refcnt, `freed, allocator.sessions.byUid.Values
      ensures var t := Step(s, JobStep);
              Shows(if t.job.JobFrees? then Step(t, JobStep) else t)
      ensures OwnRef(s) ==> freed == 0 && allocator.Valid() && allocator.Abs() == old(allocator.Abs())
      ensures !OwnRef(s) ==> freed == 1 && LeasesDestroyed()
    {
      CleaningUp(s);
      hide Inv, Step, OwnRef, IpAllocator.Valid, IpAllocator.Abs, LeasesDestroyed;
      Unref();
    }

    /** `destroy`, by the loader. */
    method Destroy(ghost s: System)
      requires Inv(s) && Shows(s) && (s.loader.Loaded? || s.loader.Unregistered?) && allocator.Valid()
      modifies `refcnt, `freed, allocator.sessions.byUid.Values
      ensures var t := Step(s, LoaderStep(false));
              Shows(if t.loader.LoaderFrees? then Step(t, LoaderStep(false)) else t)
      ensures JobRef(s) ==> freed == 0 && allocator.Valid() && allocator.Abs() == old(allocator.Abs())
      ensures !JobRef(s) ==> freed == 1 && LeasesDestroyed()
    {
      Destroying(s);
      hide Inv, Step, JobRef, IpAllocator.Valid, IpAllocator.Abs, LeasesDestroyed;
      Unref();
    }
  }

  /** The steps in which the worker ends its critical section. */
  function StepsToUnlock(job: JobPc): nat {
    match job
    case Rechecking => 3
    case Sweeping => 2
    case Swept => 1
    case _ => 0
  }

  /** The steps of unregistering, with those of the worker for which it waits. */
  function AfterUnregister(s: System): System {
    var free := Run(Step(s, LoaderStep(true)), JobSteps(StepsToUnlock(s.job)));
    Step(Step(Step(free, LoaderStep(true)), LoaderStep(true)), LoaderStep(true))
  }

  lemma Unregistering(s: System)
    requires Inv(s) && s.loader.Registered?
    ensures var t := AfterUnregister(s);
            && t.refcnt == s.refcnt && t.freed == s.freed && t.terminating && !t.fault && t.loader.Unregistered?
  {
    var wants := Step(s, LoaderStep(true));
    StepKeepsInv(s, LoaderStep(true));
    WorkerUnlocks(wants);
    hide Run;
  }

  /** Waiting for the worker ends, and changes neither references nor the flag. */
  lemma WorkerUnlocks(s: System)
    requires Inv(s) && s.loader.WantsToMark?
    ensures var t := Run(s, JobSteps(StepsToUnlock(s.job)));
            && Inv(t) && t.loader == s.loader && t.sweepLock.None?
            && t.refcnt == s.refcnt && t.freed == s.freed && t.terminating == s.terminating
    decreases StepsToUnlock(s.job)
  {
    var n := StepsToUnlock(s.job);
    StepsOfJob(s, n);
    if n > 0 {
      JobKeepsInv(s);
      WorkerUnlocks(ByJob(s));
    }
    hide Run;
  }

  /** The steps of the callback in a row. */
  function AfterCallback(s: System): System {
    Run(s, JobSteps(if s.terminating then 2 else 7))
  }

  /** The callback from beginning to end when the loader does nothing meanwhile. */
  lemma Uninterrupted(s: System)
    requires Inv(s) && s.job.Queued? && !s.loader.Marking?
    ensures AfterCallback(s)
         == s.(job := if s.terminating then Ended else Again, startedLate := s.terminating)
  {
    assert !s.fault && s.freed == 0;
    hide Inv, Run, JobSteps;
    var entered := ByJob(s);
    StepsOfJob(s, if s.terminating then 2 else 7);
    if s.terminating {
      StepsOfJob(entered, 1);
      StepsOfJob(ByJob(entered), 0);
    } else {
      EnterAndLock(entered);
      SweepAndDecide(Run(entered, JobSteps(2)));
      StepsConcat(entered, 2, 4);
    }
  }

  lemma EnterAndLock(s: System)
    requires s.job.Entered? && !s.terminating && s.sweepLock.None? && !s.fault && s.freed == 0
    ensures Run(s, JobSteps(2)) == s.(job := Rechecking, sweepLock := Some(Worker))
  {
    hide Run, JobSteps;
    StepsOfJob(s, 2);
    StepsOfJob(ByJob(s), 1);
    StepsOfJob(ByJob(ByJob(s)), 0);
  }

  lemma SweepAndDecide(s: System)
    requires s.job.Rechecking? && !s.terminating && s.sweepLock == Some(Worker) && !s.fault && s.freed == 0
    ensures Run(s, JobSteps(4)) == s.(job := Again, sweepLock := None)
  {
    hide Run, JobSteps;
    var sweeping := ByJob(s);
    var swept := ByJob(sweeping);
    var deciding := ByJob(swept);
    StepsOfJob(s, 4);
    StepsOfJob(sweeping, 3);
    StepsOfJob(swept, 2);
    StepsOfJob(deciding, 1);
    StepsOfJob(ByJob(deciding), 0);
  }

  lemma {:induction false} StepsConcat(s: System, m: nat, n: nat)
    ensures Run(s, JobSteps(m + n)) == Run(Run(s, JobSteps(m)), JobSteps(n))
    decreases m
  {
    hide Run, JobSteps, ByJob;
    StepsOfJob(s, m);
    if m > 0 {
      StepsOfJob(s, m + n);
      StepsConcat(ByJob(s), m - 1, n);
    }
  }

  /** Cleaning up drops one reference, and is the last exactly when the plugin's own is gone. */
  lemma CleaningUp(s: System)
    requires Inv(s) && s.job.Ended?
    ensures var t := Step(s, JobStep);
            var u := if t.job.JobFrees? then Step(t, JobStep) else t;
            && s.freed == 0 && (s.refcnt > 1 <==> OwnRef(s))
            && u.refcnt == s.refcnt - 1 && u.terminating == s.terminating && !u.fault
            && u.freed == (if OwnRef(s) then 0 else 1)
  {
  }

  lemma Destroying(s: System)
    requires Inv(s) && (s.loader.Loaded? || s.loader.Unregistered?)
    ensures var t := Step(s, LoaderStep(false));
            var u := if t.loader.LoaderFrees? then Step(t, LoaderStep(false)) else t;
            && s.freed == 0 && (s.refcnt > 1 <==> JobRef(s))
            && u.refcnt == s.refcnt - 1 && u.terminating == s.terminating && !u.fault
            && u.freed == (if JobRef(s) then 0 else 1)
  {
  }

  /** The steps of registering. */
  function AfterRegister(s: System, jobCreated: bool): System {
    var counted := Step(s, LoaderStep(true));
    if jobCreated then Step(counted, LoaderStep(true)) else Step(Step(counted, LoaderStep(false)), LoaderStep(true))
  }

  /** Registering leaves the plugin with one reference, or two. */
  lemma Registering(s: System, jobCreated: bool)
    requires Inv(s) && s.loader.Loaded?
    ensures var t := AfterRegister(s, jobCreated);
            && s.refcnt == 1 && s.freed == 0
            && t.refcnt == s.refcnt + (if jobCreated then 1 else 0)
            && t.terminating == s.terminating && t.freed == 0 && !t.fault
  {
  }

  lemma StepsOfJob(s: System, n: nat)
    ensures Run(s, JobSteps(n)) == if n == 0 then s else Run(ByJob(s), JobSteps(n - 1))
  {
    if n > 0 {
      assert JobSteps(n)[0] == JobStep && JobSteps(n)[1..] == JobSteps(n - 1);
    }
  }
}
