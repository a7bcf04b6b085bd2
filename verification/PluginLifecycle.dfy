/** Two parties share the plugin object: the loader, which registers, unregisters and destroys it, and
    the worker that runs the periodic sweep job.  A step is what happens between two accesses to shared
    state; a critical section under `ref_lock` is one step, the one under `sweep_lock` is several. */
module PluginLifecycle {
  import opened Counting
  import opened Hosts

  datatype Party = Loader | Worker

  datatype LoaderPc =
    | Loaded            // constructed
    | Counted           // reference for the job taken, job not created yet
    | Undoing           // no job could be created: about to give the reference back
    | UndoingLast       // ... and it was the last one
    | Registered
    | WantsToMark       // unregistering, about to take sweep_lock
    | Marking           // holds it, about to set terminating
    | Marked            // about to release it
    | Unregistered
    | LoaderFrees       // dropped the last reference, about to destroy everything
    | LoaderDone

  datatype JobPc =
    | NoJob
    | Queued
    | Entered           // about to read terminating without the lock
    | WantsToSweep      // about to take sweep_lock
    | Rechecking        // holds it, about to read terminating
    | Sweeping
    | Swept             // about to release it
    | Deciding          // about to read terminating for the answer
    | Again             // answered: reschedule
    | Ended             // about to clean up
    | JobFrees          // dropped the last reference, about to destroy everything
    | JobDone

  /** `freed` counts the runs of the internal destruction.  `fault` records an access to the object after
      it, or a lock destroyed while held.  `startedLate` tells whether the running callback began after
      terminating was set, `queuedLate` how often the job was queued again after that. */
  datatype System = System(refcnt: int, terminating: bool, sweepLock: Option<Party>, loader: LoaderPc, job: JobPc,
                           freed: nat, fault: bool, startedLate: bool, queuedLate: nat)

  /** `LoaderStep(false)`: destroy without registering, or fail to create the job.  `Drop`: the processor
      gives up a job that is not running. */
  datatype Move = LoaderStep(yes: bool) | JobStep | Drop

  /** The plugin as it was constructed: one reference, its own. */
  predicate Fresh(s: System) {
    s == System(1, false, None, Loaded, NoJob, 0, false, false, 0)
  }

  /** The object is accessed. */
  function Touch(s: System): System {
    s.(fault := s.fault || s.freed > 0)
  }

  function Free(s: System): System {
    s.(freed := s.freed + 1, fault := s.fault || s.freed > 0 || s.sweepLock.Some?)
  }

  function Unlock(s: System, p: Party): System {
    s.(sweepLock := None, fault := s.fault || s.freed > 0 || s.sweepLock != Some(p))
  }

  function ByLoader(s: System, yes: bool): System {
    match s.loader
    case Loaded =>
      if yes then Touch(s).(refcnt := s.refcnt + 1, loader := Counted) else DestroyedByLoader(s)
    case Counted => if yes then s.(loader := Registered, job := Queued) else s.(loader := Undoing)
    case Undoing => Touch(s).(refcnt := s.refcnt - 1, loader := if s.refcnt - 1 <= 0 then UndoingLast else Registered)
    case UndoingLast => Free(s).(loader := Registered)
    case Registered => Touch(s).(loader := WantsToMark)
    case WantsToMark => if s.sweepLock.Some? then s else Touch(s).(sweepLock := Some(Loader), loader := Marking)
    case Marking => Touch(s).(terminating := true, loader := Marked)
    case Marked => Unlock(s, Loader).(loader := Unregistered)
    case Unregistered => DestroyedByLoader(s)
    case LoaderFrees => Free(s).(loader := LoaderDone)
    case LoaderDone => s
  }

  function DestroyedByLoader(s: System): System {
    Touch(s).(refcnt := s.refcnt - 1, loader := if s.refcnt - 1 <= 0 then LoaderFrees else LoaderDone)
  }

  function ByJob(s: System): System {
    match s.job
    case NoJob => s
    case Queued => s.(job := Entered, startedLate := s.terminating)
    case Entered => Touch(s).(job := if s.terminating then Ended else WantsToSweep)
    case WantsToSweep => if s.sweepLock.Some? then s else Touch(s).(sweepLock := Some(Worker), job := Rechecking)
    case Rechecking => Touch(s).(job := if s.terminating then Swept else Sweeping)
    case Sweeping => Touch(s).(job := Swept)
    case Swept => Unlock(s, Worker).(job := Deciding)
    case Deciding => Touch(s).(job := if s.terminating then Ended else Again)
    case Again => s.(job := Queued, queuedLate := s.queuedLate + if s.terminating then 1 else 0)
    case Ended => Touch(s).(refcnt := s.refcnt - 1, job := if s.refcnt - 1 <= 0 then JobFrees else JobDone)
    case JobFrees => Free(s).(job := JobDone)
    case JobDone => s
  }

  function Step(s: System, m: Move): System {
    match m
    case LoaderStep(yes) => ByLoader(s, yes)
    case JobStep => ByJob(s)
    case Drop => if s.job.Queued? then s.(job := Ended) else s
  }

  function Run(s: System, moves: seq<Move>): System
    decreases |moves|
  {
    if moves == [] then s else Run(Step(s, moves[0]), moves[1..])
  }

  // ---- the invariant ----

  /** The plugin's own reference is not given up yet. */
  predicate OwnRef(s: System) {
    !s.loader.LoaderFrees? && !s.loader.LoaderDone?
  }

  /** The reference of the job: taken before the job exists, given up by its cleanup. */
  predicate JobRef(s: System) {
    s.loader.Counted? || s.loader.Undoing? || !(s.job.NoJob? || s.job.JobFrees? || s.job.JobDone?)
  }

  predicate BeforeJob(s: System) {
    s.loader.Loaded? || s.loader.Counted? || s.loader.Undoing?
  }

  predicate PastMark(s: System) {
    s.loader.Marked? || s.loader.Unregistered? || s.loader.LoaderFrees? || s.loader.LoaderDone?
  }

  /** The callback has seen terminating unset and has not answered yet, or has answered to reschedule. */
  predicate Committed(s: System) {
    s.job.WantsToSweep? || s.job.Rechecking? || s.job.Sweeping? || s.job.Swept? || s.job.Deciding? || s.job.Again?
  }

  predicate LoaderLocks(s: System) {
    s.loader.Marking? || s.loader.Marked?
  }

  predicate WorkerLocks(s: System) {
    s.job.Rechecking? || s.job.Sweeping? || s.job.Swept?
  }

  predicate Inv(s: System) {
    && !s.fault
    && s.refcnt == Count(OwnRef(s)) + Count(JobRef(s))
    && s.freed + Count(s.loader.LoaderFrees?) + Count(s.job.JobFrees?) == Count(s.refcnt == 0)
    && (BeforeJob(s) ==> s.job.NoJob?) && !s.loader.UndoingLast?
    && !(LoaderLocks(s) && WorkerLocks(s))
    && s.sweepLock == (if LoaderLocks(s) then Some(Loader) else if WorkerLocks(s) then Some(Worker) else None)
    && (s.terminating ==> PastMark(s)) && (PastMark(s) && !s.job.NoJob? ==> s.terminating)
    && (s.loader.Marked? || s.loader.Unregistered? ==> s.terminating)
    && (s.job.Sweeping? ==> !s.terminating)
    && (s.startedLate ==> s.terminating && !Committed(s))
    && s.queuedLate <= Count(s.terminating && !Committed(s))
  }

  lemma FreshInv(s: System)
    requires Fresh(s)
    ensures Inv(s)
  {
  }

  lemma StepKeepsInv(s: System, m: Move)
    requires Inv(s)
    ensures Inv(Step(s, m))
  {
    match m
    case LoaderStep(yes) => LoaderKeepsInv(s, yes);
    case JobStep => JobKeepsInv(s);
    case Drop =>
  }

  lemma LoaderKeepsInv(s: System, yes: bool)
    requires Inv(s)
    ensures Inv(ByLoader(s, yes))
  {
  }

  lemma JobKeepsInv(s: System)
    requires Inv(s)
    ensures Inv(ByJob(s))
  {
  }

  lemma {:induction false} RunKeepsInv(s: System, moves: seq<Move>)
    requires Inv(s)
    ensures Inv(Run(s, moves))
    decreases |moves|
  {
    hide Inv, Step;
    if moves != [] {
      StepKeepsInv(s, moves[0]);
      RunKeepsInv(Step(s, moves[0]), moves[1..]);
    }
  }

  // ---- what it means ----

  /** In every interleaving the count is the number of references; nobody touches the object after its
      destruction or destroys a held lock; the internal destruction has run exactly when both references
      are gone and nobody is about to run it, and then once. */
  lemma {:induction false} DestroyedOnceAndLast(start: System, moves: seq<Move>)
    requires Fresh(start)
    ensures var s := Run(start, moves);
            && !s.fault
            && s.refcnt == Count(OwnRef(s)) + Count(JobRef(s))
            && s.freed <= 1
            && (s.freed == 1 <==> !OwnRef(s) && !JobRef(s) && !s.loader.LoaderFrees? && !s.job.JobFrees?)
  {
    hide Run, Fresh;
    FreshInv(start);
    RunKeepsInv(start, moves);
  }

  /** While the body of a sweep runs terminating is not set, nobody is setting it, and the object exists. */
  lemma {:induction false} NoSweepAfterMark(start: System, moves: seq<Move>)
    requires Fresh(start)
    ensures var s := Run(start, moves);
            s.job.Sweeping? ==> !s.terminating && !s.loader.Marking? && !s.loader.Marked? && s.freed == 0
  {
    hide Run, Fresh;
    FreshInv(start);
    RunKeepsInv(start, moves);
  }

  /** A callback that begins after terminating is set neither sweeps nor reschedules, and the one that was
      running when it was set reschedules at most once. */
  lemma {:induction false} NoLateReschedule(start: System, moves: seq<Move>)
    requires Fresh(start)
    ensures var s := Run(start, moves);
            && (s.startedLate ==> !s.job.Sweeping? && !s.job.Again?)
            && s.queuedLate <= 1 && (s.job.Again? && s.terminating ==> s.queuedLate == 0)
  {
    hide Run, Fresh;
    FreshInv(start);
    RunKeepsInv(start, moves);
  }

  /** How many steps of its own the job has left at most once terminating is set. */
  function StepsLeft(job: JobPc): nat {
    match job
    case NoJob => 0
    case JobDone => 0
    case JobFrees => 1
    case Ended => 2
    case Entered => 3
    case Deciding => 3
    case Queued => 4
    case Swept => 4
    case Again => 5
    case Sweeping => 5
    case Rechecking => 5
    case WantsToSweep => 6
  }

  function JobSteps(n: nat): seq<Move> {
    seq(n, _ => JobStep)
  }

  /** Once the plugin is unregistered the job comes to its end by its own steps, whatever it was doing. */
  lemma {:induction false} JobEnds(s: System, n: nat)
    requires Inv(s) && s.terminating && s.sweepLock != Some(Loader) && n >= StepsLeft(s.job)
    ensures var t := Run(s, JobSteps(n));
            && (t.job.NoJob? || t.job.JobDone?) && t.loader == s.loader
            && Inv(t) && t.terminating && t.sweepLock != Some(Loader)
    decreases n
  {
    if n > 0 {
      var next := Step(s, JobStep);
      JobKeepsInv(s);
      assert StepsLeft(next.job) <= n - 1;
      assert JobSteps(n)[0] == JobStep && JobSteps(n)[1..] == JobSteps(n - 1);
      JobEnds(next, n - 1);
    }
  }

  /** How many steps of its own the loader has left after unregistering. */
  function LoaderStepsLeft(loader: LoaderPc): nat {
    if loader.Unregistered? then 2 else if loader.LoaderFrees? then 1 else 0
  }

  function Steps(moves: seq<Move>, byJob: bool): nat {
    if moves == [] then 0
    else (if (if byJob then moves[0].JobStep? else moves[0].LoaderStep?) then 1 else 0) + Steps(moves[1..], byJob)
  }

  /** The plugin is unregistered and nobody can hold up anybody. */
  predicate WindingDown(s: System) {
    Inv(s) && (s.loader.Unregistered? || ((s.loader.LoaderFrees? || s.loader.LoaderDone?) && s.terminating))
  }

  lemma WindsDown(s: System, m: Move)
    requires WindingDown(s)
    ensures var t := Step(s, m);
            && WindingDown(t)
            && StepsLeft(t.job) <= StepsLeft(s.job) && LoaderStepsLeft(t.loader) <= LoaderStepsLeft(s.loader)
            && (m.JobStep? && StepsLeft(s.job) > 0 ==> StepsLeft(t.job) < StepsLeft(s.job))
            && (m.LoaderStep? && LoaderStepsLeft(s.loader) > 0 ==>
                  LoaderStepsLeft(t.loader) < LoaderStepsLeft(s.loader))
  {
    StepKeepsInv(s, m);
  }

  /** Both are done, and the object is destroyed, once. */
  predicate AllGone(s: System) {
    !s.fault && s.refcnt == 0 && s.freed == 1 && s.loader.LoaderDone? && (s.job.NoJob? || s.job.JobDone?)
  }

  lemma {:induction false} EnoughSteps(s: System, moves: seq<Move>)
    requires WindingDown(s)
    requires Steps(moves, true) >= StepsLeft(s.job) && Steps(moves, false) >= LoaderStepsLeft(s.loader)
    ensures AllGone(Run(s, moves))
    decreases |moves|
  {
    if moves != [] {
      hide Step, Inv, AllGone;
      WindsDown(s, moves[0]);
      EnoughSteps(Step(s, moves[0]), moves[1..]);
    }
  }

  /** From any point of any run after unregistering, every continuation in which the job makes six steps
      and the loader two, in whatever order and with whatever the processor does, ends with the object
      destroyed, once, whichever of the two goes last. */
  lemma {:induction false} EverythingIsFreed(start: System, moves: seq<Move>, rest: seq<Move>)
    requires Fresh(start)
    requires Run(start, moves).loader.Unregistered?
    requires Steps(rest, true) >= 6 && Steps(rest, false) >= 2
    ensures AllGone(Run(Run(start, moves), rest))
  {
    hide Run, Step, Inv, Fresh, AllGone;
    FreshInv(start);
    RunKeepsInv(start, moves);
    EnoughSteps(Run(start, moves), rest);
  }
}
