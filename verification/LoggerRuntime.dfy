/** The Data Logger runtime: reconciliation, shutdown and the running jobs as interleaved
    atomic steps. A step is one critical section, or one event outside the lock. */
module LoggerRuntime {
  import opened Identifiers
  import opened Runs

  type JobId = nat

  /** A logger as listed; the fingerprint stands for its serialised definition. */
  datatype Logger = Logger(id: Uuid, enabled: bool, fingerprint: nat)

  datatype Job = Job(logger: Uuid, fingerprint: nat, cancelled: bool, done: bool)

  type Desired = map<Uuid, nat>

  datatype Caller = Outside | ReconcilerLoop

  /** Where the holder of the reconcile lock stands. `before` are the jobs it found. */
  datatype Reconciling =
    | Idle
    | Listing(caller: Caller)
    | Waiting(caller: Caller, desired: Desired, missing: Desired, removed: set<JobId>, before: map<Uuid, JobId>)

  /** Where the Stop call that initiated shutdown stands. */
  datatype Stopping = NotStopping | WaitingForJobs(jobs: set<JobId>) | WaitingForGroup | Clearing | Returned

  datatype Reconciler = NotStarted | Running | Exited

  /** `jobs` is the runtime's map of current jobs; `table` holds every job ever started. */
  datatype State = State(
    started: bool,
    stopped: bool,
    jobs: map<Uuid, JobId>,
    table: map<JobId, Job>,
    nextJob: JobId,
    reconciling: Reconciling,
    stopping: Stopping,
    reconciler: Reconciler
  ) {
    predicate Live(j: JobId) {
      j in table && !table[j].done
    }

    /** The wait group is at zero: every job goroutine and the reconciler have ended. */
    predicate GroupIsZero() {
      reconciler != Running && forall j :: j in table ==> table[j].done
    }
  }

  const INITIAL := State(false, false, map[], map[], 0, Idle, NotStopping, NotStarted)

  // ---------------------------------------------------------------- critical sections

  /** The loggers that should run, with their fingerprints; the last listing of an
      identifier counts. */
  function DesiredOf(loggers: seq<Logger>): Desired {
    if loggers == [] then map[]
    else
      var front, last := DesiredOf(loggers[..|loggers| - 1]), loggers[|loggers| - 1];
      if last.id == NIL || !last.enabled then front else front[last.id := last.fingerprint]
  }

  /** A logger wanted by a listing: it is named, and the last of its listings that are
      enabled has this fingerprint. */
  ghost predicate Wanted(loggers: seq<Logger>, id: Uuid, fingerprint: nat) {
    id != NIL && exists i :: LastEnabled(loggers, i, id) && loggers[i].fingerprint == fingerprint
  }

  ghost predicate LastEnabled(loggers: seq<Logger>, i: int, id: Uuid) {
    && 0 <= i < |loggers| && loggers[i].id == id && loggers[i].enabled
    && forall j :: i < j < |loggers| && loggers[j].id == id ==> !loggers[j].enabled
  }

  lemma WantedOneMore(loggers: seq<Logger>, last: Logger, id: Uuid, fingerprint: nat)
    ensures Wanted(loggers + [last], id, fingerprint) <==>
              if last.id == id && last.enabled then id != NIL && last.fingerprint == fingerprint
              else Wanted(loggers, id, fingerprint)
  {
    forall i ensures LastEnabled(loggers + [last], i, id) <==>
                       if last.id == id && last.enabled then i == |loggers| else LastEnabled(loggers, i, id) {
      LastEnabledOneMore(loggers, last, i, id);
    }
    if last.id == id && last.enabled {
      assert LastEnabled(loggers + [last], |loggers|, id);
    } else {
      forall i | LastEnabled(loggers, i, id) ensures (loggers + [last])[i] == loggers[i] {
      }
    }
  }

  lemma LastEnabledOneMore(loggers: seq<Logger>, last: Logger, i: int, id: Uuid)
    ensures LastEnabled(loggers + [last], i, id) <==>
              if last.id == id && last.enabled then i == |loggers| else LastEnabled(loggers, i, id)
  {
    var all := loggers + [last];
    assert all[|loggers|] == last && forall j :: 0 <= j < |loggers| ==> all[j] == loggers[j];
  }

  /** The desired loggers are exactly the wanted ones. */
  lemma {:induction false} DesiredIsWanted(loggers: seq<Logger>, id: Uuid, fingerprint: nat)
    ensures id in DesiredOf(loggers) && DesiredOf(loggers)[id] == fingerprint <==> Wanted(loggers, id, fingerprint)
  {
    if loggers != [] {
      var front, last := loggers[..|loggers| - 1], loggers[|loggers| - 1];
      DesiredIsWanted(front, id, fingerprint);
      WantedOneMore(front, last, id, fingerprint);
      assert loggers == front + [last];
    }
  }

  predicate Keeps(jobs: map<Uuid, JobId>, table: map<JobId, Job>, desired: Desired, id: Uuid) {
    id in jobs && id in desired && jobs[id] in table && table[jobs[id]].fingerprint == desired[id]
  }

  function Kept(jobs: map<Uuid, JobId>, table: map<JobId, Job>, desired: Desired): map<Uuid, JobId> {
    map id | id in jobs && Keeps(jobs, table, desired, id) :: jobs[id]
  }

  function Removed(jobs: map<Uuid, JobId>, table: map<JobId, Job>, desired: Desired): set<JobId> {
    set id | id in jobs && !Keeps(jobs, table, desired, id) :: jobs[id]
  }

  function CancelJobs(table: map<JobId, Job>, ids: set<JobId>): map<JobId, Job> {
    map j | j in table :: if j in ids then table[j].(cancelled := true) else table[j]
  }

  /** New jobs for the missing loggers, each under a number not used before. */
  ghost predicate StartsMissing(missing: Desired, first: JobId, added: map<Uuid, JobId>, created: map<JobId, Job>) {
    && added.Keys == missing.Keys
    && (forall id :: id in added ==>
          added[id] in created && created[added[id]] == Job(id, missing[id], false, false))
    && (forall j :: j in created ==>
          j >= first && created[j].logger in added && added[created[j].logger] == j)
  }

  // ---------------------------------------------------------------- steps

  datatype Step =
    | Start
    | SpawnReconciler
    | ReconcilerExits
    | ReconcileBegins(caller: Caller)
    | ListingFails
    | Listed(loggers: seq<Logger>)
    | ReconcileFinishes(added: map<Uuid, JobId>, created: map<JobId, Job>, next: JobId)
    | JobExits(job: JobId)
    | StopBegins
    | StopSawJobs
    | StopSawGroup
    | StopClears

  ghost predicate Enabled(s: State, step: Step) {
    match step
    case Start => !s.started && !s.stopped
    case SpawnReconciler => s.started && !s.stopped && s.reconciler == NotStarted
    case ReconcilerExits =>
      s.reconciler == Running && !(s.reconciling != Idle && s.reconciling.caller == ReconcilerLoop)
    case ReconcileBegins(caller) =>
      s.reconciling == Idle && s.started && !s.stopped && (caller == ReconcilerLoop ==> s.reconciler == Running)
    case ListingFails => s.reconciling.Listing?
    case Listed(_) => s.reconciling.Listing?
    case ReconcileFinishes(added, created, next) =>
      && s.reconciling.Waiting?
      && (forall j :: j in s.reconciling.removed ==> !s.Live(j))
      && StartsMissing(s.reconciling.missing, s.nextJob, added, created)
      && s.nextJob <= next && (forall j :: j in created ==> j < next)
    case JobExits(j) => s.Live(j)
    case StopBegins => s.started && !s.stopped
    case StopSawJobs => s.stopping.WaitingForJobs? && forall j :: j in s.stopping.jobs ==> !s.Live(j)
    case StopSawGroup => s.stopping == WaitingForGroup && s.GroupIsZero()
    case StopClears => s.stopping == Clearing
  }

  ghost function Perform(s: State, step: Step): State
    requires Enabled(s, step)
  {
    match step
    case Start => s.(started := true)
    case SpawnReconciler => s.(reconciler := Running)
    case ReconcilerExits => s.(reconciler := Exited)
    case ReconcileBegins(caller) => s.(reconciling := Listing(caller))
    case ListingFails => s.(reconciling := Idle)
    case Listed(loggers) =>
      var desired := DesiredOf(loggers);
      var kept, removed := Kept(s.jobs, s.table, desired), Removed(s.jobs, s.table, desired);
      s.(jobs := kept, table := CancelJobs(s.table, removed),
         reconciling := Waiting(s.reconciling.caller, desired, desired - kept.Keys, removed, s.jobs))
    case ReconcileFinishes(added, created, next) =>
      if s.stopped then s.(reconciling := Idle)
      else s.(jobs := s.jobs + added, table := s.table + created,
              nextJob := next, reconciling := Idle)
    case JobExits(j) => s.(table := s.table[j := s.table[j].(done := true)])
    case StopBegins =>
      s.(stopped := true, stopping := WaitingForJobs(s.jobs.Values), table := CancelJobs(s.table, s.jobs.Values))
    case StopSawJobs => s.(stopping := WaitingForGroup)
    case StopSawGroup => s.(stopping := Clearing)
    case StopClears => s.(stopping := Returned, jobs := map[])
  }

  // ---------------------------------------------------------------- invariant

  /** Every live job is current, or was removed by the reconciliation under way. */
  ghost predicate Accounted(s: State, j: JobId) {
    s.Live(j) ==>
      || (s.table[j].logger in s.jobs && s.jobs[s.table[j].logger] == j)
      || (s.reconciling.Waiting? && j in s.reconciling.removed && s.table[j].logger !in s.jobs
          && s.table[j].logger in s.reconciling.before && s.reconciling.before[s.table[j].logger] == j)
  }

  ghost predicate Filed(s: State) {
    && (forall id :: id in s.jobs ==> s.jobs[id] in s.table && s.table[s.jobs[id]].logger == id)
    && (forall j :: j in s.table ==> j < s.nextJob)
  }

  /** Whatever is waited for has been cancelled, and nothing runs once the group was seen
      at zero. */
  ghost predicate StoppingOk(s: State) {
    && (s.stopping != NotStopping <==> s.stopped)
    && (s.stopped ==> forall j :: s.Live(j) ==> s.table[j].cancelled)
    && (s.stopping.Clearing? || s.stopping.Returned? ==> forall j :: j in s.table ==> s.table[j].done)
  }

  ghost predicate CancelledOk(s: State) {
    s.reconciling.Waiting? ==> forall j :: j in s.reconciling.removed ==> j in s.table && s.table[j].cancelled
  }

  /** Between cancelling and starting, the map holds exactly the jobs to be kept. */
  ghost predicate KeptOk(s: State) {
    s.reconciling.Waiting? && !s.stopped ==>
      && s.jobs == Kept(s.reconciling.before, s.table, s.reconciling.desired)
      && s.reconciling.missing == s.reconciling.desired - s.jobs.Keys
      && s.reconciling.removed == Removed(s.reconciling.before, s.table, s.reconciling.desired)
      && (forall id :: id in s.reconciling.before ==> s.reconciling.before[id] in s.table)
  }

  ghost predicate Invariant(s: State) {
    && Filed(s) && StoppingOk(s) && CancelledOk(s) && KeptOk(s)
    && forall j :: Accounted(s, j)
  }

  /** Cancelling changes no fingerprint, so the same jobs are kept. */
  lemma CancelledKeepsSame(jobs: map<Uuid, JobId>, table: map<JobId, Job>, desired: Desired, ids: set<JobId>)
    ensures Kept(jobs, CancelJobs(table, ids), desired) == Kept(jobs, table, desired)
    ensures Removed(jobs, CancelJobs(table, ids), desired) == Removed(jobs, table, desired)
  {
    forall id ensures Keeps(jobs, CancelJobs(table, ids), desired, id) <==> Keeps(jobs, table, desired, id) {
    }
  }

  lemma ListedAccounts(s: State, loggers: seq<Logger>, j: JobId)
    requires Filed(s) && Accounted(s, j) && Enabled(s, Listed(loggers))
    ensures Accounted(Perform(s, Listed(loggers)), j)
  {
  }

  lemma ListedKeepsFiled(s: State, loggers: seq<Logger>)
    requires Filed(s) && StoppingOk(s) && Enabled(s, Listed(loggers))
    ensures var t := Perform(s, Listed(loggers)); Filed(t) && StoppingOk(t) && CancelledOk(t)
  {
  }

  lemma ListedKeepsInvariant(s: State, loggers: seq<Logger>)
    requires Invariant(s) && Enabled(s, Listed(loggers))
    ensures Invariant(Perform(s, Listed(loggers)))
  {
    var t, desired := Perform(s, Listed(loggers)), DesiredOf(loggers);
    ListedKeepsFiled(s, loggers);
    forall j ensures Accounted(t, j) {
      assert Accounted(s, j);
      ListedAccounts(s, loggers, j);
    }
    CancelledKeepsSame(s.jobs, s.table, desired, Removed(s.jobs, s.table, desired));
  }

  lemma FinishAccounts(s: State, added: map<Uuid, JobId>, created: map<JobId, Job>, next: JobId, j: JobId)
    requires Filed(s) && KeptOk(s) && Accounted(s, j) && Enabled(s, ReconcileFinishes(added, created, next))
    ensures Accounted(Perform(s, ReconcileFinishes(added, created, next)), j)
  {
  }

  lemma FinishKeepsFiled(s: State, added: map<Uuid, JobId>, created: map<JobId, Job>, next: JobId)
    requires Filed(s) && StoppingOk(s) && Enabled(s, ReconcileFinishes(added, created, next))
    ensures var t := Perform(s, ReconcileFinishes(added, created, next)); Filed(t) && StoppingOk(t)
  {
  }

  lemma FinishKeepsInvariant(s: State, added: map<Uuid, JobId>, created: map<JobId, Job>, next: JobId)
    requires Invariant(s) && Enabled(s, ReconcileFinishes(added, created, next))
    ensures Invariant(Perform(s, ReconcileFinishes(added, created, next)))
  {
    var t := Perform(s, ReconcileFinishes(added, created, next));
    FinishKeepsFiled(s, added, created, next);
    forall j ensures Accounted(t, j) {
      assert Accounted(s, j);
      FinishAccounts(s, added, created, next, j);
    }
  }

  lemma ExitKeepsKept(s: State, j: JobId)
    requires KeptOk(s) && Enabled(s, JobExits(j))
    ensures KeptOk(Perform(s, JobExits(j)))
  {
    if s.reconciling.Waiting? {
      DoneKeepsSame(s.reconciling.before, s.table, s.reconciling.desired, j);
    }
  }

  lemma DoneKeepsSame(jobs: map<Uuid, JobId>, table: map<JobId, Job>, desired: Desired, j: JobId)
    requires j in table
    ensures var after := table[j := table[j].(done := true)];
            Kept(jobs, after, desired) == Kept(jobs, table, desired)
            && Removed(jobs, after, desired) == Removed(jobs, table, desired)
  {
    forall id
      ensures Keeps(jobs, table[j := table[j].(done := true)], desired, id) <==> Keeps(jobs, table, desired, id)
    {
    }
  }

  lemma ExitKeepsInvariant(s: State, j: JobId)
    requires Invariant(s) && Enabled(s, JobExits(j))
    ensures Invariant(Perform(s, JobExits(j)))
  {
    var t := Perform(s, JobExits(j));
    ExitKeepsKept(s, j);
    forall k ensures Accounted(t, k) {
      assert Accounted(s, k);
    }
  }

  lemma StopKeepsInvariant(s: State)
    requires Invariant(s) && Enabled(s, StopBegins)
    ensures Invariant(Perform(s, StopBegins))
  {
    var t := Perform(s, StopBegins);
    forall j ensures Accounted(t, j) && (t.Live(j) ==> t.table[j].cancelled) {
      assert Accounted(s, j);
      assert s.Live(j) && s.table[j].logger in s.jobs ==> s.jobs[s.table[j].logger] in s.jobs.Values;
    }
  }

  lemma StepKeepsInvariant(s: State, step: Step)
    requires Invariant(s) && Enabled(s, step)
    ensures Invariant(Perform(s, step))
  {
    match step
    case Listed(loggers) => ListedKeepsInvariant(s, loggers);
    case ReconcileFinishes(added, created, next) => FinishKeepsInvariant(s, added, created, next);
    case JobExits(j) => ExitKeepsInvariant(s, j);
    case StopBegins => StopKeepsInvariant(s);
    case _ =>
      var t := Perform(s, step);
      forall j ensures Accounted(t, j) {
        assert Accounted(s, j);
      }
  }

  // ---------------------------------------------------------------- promises

  /** At most one run per logger is live. */
  lemma OneLiveRunPerLogger(s: State, j: JobId, k: JobId)
    requires Invariant(s) && s.Live(j) && s.Live(k) && s.table[j].logger == s.table[k].logger
    ensures j == k
  {
    assert Accounted(s, j) && Accounted(s, k);
  }

  ghost predicate Next(s: State, t: State) {
    exists step :: Enabled(s, step) && t == Perform(s, step)
  }

  ghost predicate IsRun(run: seq<State>) {
    Run(run, Next) && run[0] == INITIAL
  }

  lemma NextKeepsInvariant(s: State, t: State)
    requires Invariant(s) && Next(s, t)
    ensures Invariant(t)
  {
    var step :| Enabled(s, step) && t == Perform(s, step);
    StepKeepsInvariant(s, step);
  }

  lemma ReachableIsInvariant(run: seq<State>, n: nat)
    requires IsRun(run) && n < |run|
    ensures Invariant(run[n])
  {
    forall s, t | Invariant(s) && Next(s, t) ensures Invariant(t) {
      NextKeepsInvariant(s, t);
    }
    Preserved(run, Next, Invariant, n);
  }

  /** In every reachable interleaving at most one run per logger is live, none is once the
      stopping call has returned, and whatever a waiting call waits for was told to end. */
  lemma RuntimeIsSafe(run: seq<State>, n: nat)
    requires IsRun(run) && n < |run|
    ensures var s := run[n];
            && (forall j, k :: s.Live(j) && s.Live(k) && s.table[j].logger == s.table[k].logger ==> j == k)
            && (s.stopping == Returned ==> forall j :: !s.Live(j))
            && (s.stopped ==> forall j :: s.Live(j) ==> s.table[j].cancelled)
            && (s.reconciling.Waiting? ==>
                  forall j :: j in s.reconciling.removed && s.Live(j) ==> s.table[j].cancelled)
  {
    var s := run[n];
    ReachableIsInvariant(run, n);
    forall j, k | s.Live(j) && s.Live(k) && s.table[j].logger == s.table[k].logger ensures j == k {
      OneLiveRunPerLogger(s, j, k);
    }
  }

  // ---------------------------------------------------------------- one reconciliation

  /** A run while a listing that has been taken is being carried out. */
  ghost predicate CarriesOut(run: seq<State>, listed: State, loggers: seq<Logger>) {
    && Enabled(listed, Listed(loggers)) && Run(run, NextWaiting)
    && run[0] == Perform(listed, Listed(loggers))
  }

  ghost predicate NextWaiting(s: State, t: State) {
    Next(s, t) && t.reconciling.Waiting?
  }

  /** No job comes or goes, and none changes its logger or fingerprint. */
  ghost predicate SameJobs(a: map<JobId, Job>, b: map<JobId, Job>) {
    && a.Keys == b.Keys
    && forall j :: j in a ==> a[j].logger == b[j].logger && a[j].fingerprint == b[j].fingerprint
  }

  ghost predicate Since(first: State, s: State) {
    && s.reconciling == first.reconciling && s.nextJob == first.nextJob && SameJobs(first.table, s.table)
  }

  lemma WaitingStep(s: State, step: Step)
    requires s.reconciling.Waiting? && Enabled(s, step) && Perform(s, step).reconciling.Waiting?
    ensures Since(s, Perform(s, step))
  {
  }

  lemma WaitingStays(first: State, s: State, t: State)
    requires first.reconciling.Waiting? && Since(first, s) && NextWaiting(s, t)
    ensures Since(first, t)
  {
    var step :| Enabled(s, step) && t == Perform(s, step);
    WaitingStep(s, step);
    SameJobsOn(first.table, s.table, t.table);
  }

  lemma SameJobsOn(a: map<JobId, Job>, b: map<JobId, Job>, c: map<JobId, Job>)
    requires SameJobs(a, b) && SameJobs(b, c)
    ensures SameJobs(a, c)
  {
  }

  lemma CarryingOutKeeps(run: seq<State>, listed: State, loggers: seq<Logger>)
    requires Invariant(listed) && CarriesOut(run, listed, loggers)
    ensures Invariant(run[|run| - 1]) && Since(run[0], run[|run| - 1])
    ensures SameJobs(listed.table, run[|run| - 1].table)
  {
    var first := run[0];
    var kept := (s: State) => Invariant(s) && Since(first, s);
    ListedKeepsInvariant(listed, loggers);
    forall s, t | kept(s) && NextWaiting(s, t) ensures kept(t) {
      WaitingStays(first, s, t);
      NextKeepsInvariant(s, t);
    }
    Preserved(run, NextWaiting, kept, |run| - 1);
    SameJobsOn(listed.table, first.table, run[|run| - 1].table);
  }

  ghost predicate HasJob(s: State, id: Uuid, fingerprint: nat) {
    && id in s.jobs && s.jobs[id] in s.table
    && s.table[s.jobs[id]].logger == id && s.table[s.jobs[id]].fingerprint == fingerprint
  }

  ghost predicate Unchanged(before: State, loggers: seq<Logger>, id: Uuid) {
    exists fingerprint :: Wanted(loggers, id, fingerprint) && HasJob(before, id, fingerprint)
  }

  /** What became of a logger between listing and finishing. */
  ghost predicate Installed(before: State, after: State, loggers: seq<Logger>, id: Uuid) {
    && (forall fingerprint :: Wanted(loggers, id, fingerprint) ==> HasJob(after, id, fingerprint))
    && (id in after.jobs ==>
          && (exists fingerprint :: Wanted(loggers, id, fingerprint))
          && if Unchanged(before, loggers, id) then after.jobs[id] == before.jobs[id]
             else after.jobs[id] !in before.table)
    && (id in before.jobs && !Unchanged(before, loggers, id) ==> !after.Live(before.jobs[id]))
  }

  /** A desired logger's job is the one kept, or a new one under a new number. */
  lemma InstalledJob(s: State, added: map<Uuid, JobId>, created: map<JobId, Job>, next: JobId, id: Uuid)
    requires Filed(s) && KeptOk(s) && Enabled(s, ReconcileFinishes(added, created, next)) && !s.stopped
    requires id in s.reconciling.desired
    ensures var t, r := Perform(s, ReconcileFinishes(added, created, next)), s.reconciling;
            && id in t.jobs && t.jobs[id] in t.table && t.table[t.jobs[id]].fingerprint == r.desired[id]
            && (if Keeps(r.before, s.table, r.desired, id) then t.jobs[id] == r.before[id] else t.jobs[id] >= s.nextJob)
  {
    var r := s.reconciling;
    if Keeps(r.before, s.table, r.desired, id) {
      assert id in s.jobs && s.jobs[id] in s.table && s.jobs[id] !in created;
    } else {
      assert id in r.missing && id in added && added[id] >= s.nextJob;
    }
  }

  lemma UnchangedIsKept(listed: State, s: State, loggers: seq<Logger>, id: Uuid)
    requires Filed(listed) && SameJobs(listed.table, s.table)
    ensures Unchanged(listed, loggers, id) <==> Keeps(listed.jobs, s.table, DesiredOf(loggers), id)
  {
    var desired := DesiredOf(loggers);
    if Keeps(listed.jobs, s.table, desired, id) {
      DesiredIsWanted(loggers, id, desired[id]);
      assert HasJob(listed, id, desired[id]);
    }
    forall fingerprint | Wanted(loggers, id, fingerprint) ensures id in desired && desired[id] == fingerprint {
      DesiredIsWanted(loggers, id, fingerprint);
    }
  }

  /** A job that was not kept was waited for. */
  lemma ChangedIsNotLive(s: State, added: map<Uuid, JobId>, created: map<JobId, Job>, next: JobId, id: Uuid)
    requires Filed(s) && KeptOk(s) && Enabled(s, ReconcileFinishes(added, created, next)) && !s.stopped
    requires id in s.reconciling.before && !Keeps(s.reconciling.before, s.table, s.reconciling.desired, id)
    ensures !Perform(s, ReconcileFinishes(added, created, next)).Live(s.reconciling.before[id])
  {
    assert s.reconciling.before[id] in s.reconciling.removed;
  }

  lemma WantedIsInstalled(s: State, loggers: seq<Logger>, added: map<Uuid, JobId>, created: map<JobId, Job>,
                          next: JobId, id: Uuid, fingerprint: nat)
    requires Filed(s) && KeptOk(s) && StoppingOk(s) && Enabled(s, ReconcileFinishes(added, created, next))
    requires !s.stopped && s.reconciling.desired == DesiredOf(loggers) && Wanted(loggers, id, fingerprint)
    ensures HasJob(Perform(s, ReconcileFinishes(added, created, next)), id, fingerprint)
  {
    DesiredIsWanted(loggers, id, fingerprint);
    InstalledJob(s, added, created, next, id);
    FinishKeepsFiled(s, added, created, next);
  }

  lemma LoggerIsInstalled(listed: State, s: State, loggers: seq<Logger>,
                          added: map<Uuid, JobId>, created: map<JobId, Job>, next: JobId, id: Uuid)
    requires Filed(listed) && SameJobs(listed.table, s.table) && s.nextJob == listed.nextJob
    requires Filed(s) && KeptOk(s) && StoppingOk(s) && Enabled(s, ReconcileFinishes(added, created, next))
    requires !s.stopped && s.reconciling.before == listed.jobs && s.reconciling.desired == DesiredOf(loggers)
    ensures Installed(listed, Perform(s, ReconcileFinishes(added, created, next)), loggers, id)
  {
    var t := Perform(s, ReconcileFinishes(added, created, next));
    UnchangedIsKept(listed, s, loggers, id);
    forall fingerprint | Wanted(loggers, id, fingerprint) ensures HasJob(t, id, fingerprint) {
      WantedIsInstalled(s, loggers, added, created, next, id, fingerprint);
    }
    if id in t.jobs {
      assert id in DesiredOf(loggers);
      DesiredIsWanted(loggers, id, DesiredOf(loggers)[id]);
      InstalledJob(s, added, created, next, id);
    }
    if id in listed.jobs && !Unchanged(listed, loggers, id) {
      ChangedIsNotLive(s, added, created, next, id);
    }
  }

  /** When a reconciliation finishes without a stop, exactly the loggers wanted by its listing
      have a job, with the fingerprint of that listing. A job that already had it is the one
      from before; any other from before is no longer live. */
  lemma ReconcileInstallsDesired(run: seq<State>, listed: State, loggers: seq<Logger>,
                                 added: map<Uuid, JobId>, created: map<JobId, Job>, next: JobId)
    requires Invariant(listed) && CarriesOut(run, listed, loggers) && !run[|run| - 1].stopped
    requires Enabled(run[|run| - 1], ReconcileFinishes(added, created, next))
    ensures var done := Perform(run[|run| - 1], ReconcileFinishes(added, created, next));
            forall id :: Installed(listed, done, loggers, id)
  {
    CarryingOutKeeps(run, listed, loggers);
    var s := run[|run| - 1];
    var done := Perform(s, ReconcileFinishes(added, created, next));
    forall id ensures Installed(listed, done, loggers, id) {
      LoggerIsInstalled(listed, s, loggers, added, created, next, id);
    }
  }

  // ---------------------------------------------------------------- no call waits for ever

  /** One more step of a run. */
  lemma TakeStep(run: seq<State>, step: Step) returns (longer: seq<State>)
    requires Run(run, Next) && Invariant(run[|run| - 1]) && Enabled(run[|run| - 1], step)
    ensures Run(longer, Next) && longer[0] == run[0]
    ensures longer[|longer| - 1] == Perform(run[|run| - 1], step) && Invariant(longer[|longer| - 1])
  {
    var s, t := run[|run| - 1], Perform(run[|run| - 1], step);
    StepKeepsInvariant(s, step);
    assert Next(s, t);
    Extended(run, Next, t);
    longer := run + [t];
  }

  /** The state when the jobs of a set have ended. */
  ghost predicate AllExited(s: State, t: State, ids: set<JobId>) {
    && t == s.(table := t.table) && t.table.Keys == s.table.Keys
    && (forall j :: t.Live(j) ==> s.Live(j)) && (forall j :: j in ids ==> !t.Live(j))
  }

  lemma {:induction false} JobsCanExit(s: State, ids: set<JobId>) returns (run: seq<State>)
    requires Invariant(s)
    ensures Run(run, Next) && run[0] == s && Invariant(run[|run| - 1]) && AllExited(s, run[|run| - 1], ids)
    decreases |ids|
  {
    run := [s];
    if ids != {} {
      var j :| j in ids;
      if s.Live(j) {
        run := TakeStep(run, JobExits(j));
      }
      var more := JobsCanExit(run[|run| - 1], ids - {j});
      run := Joined(run, more, Next);
    }
  }

  /** New jobs can be numbered for any missing loggers. */
  lemma {:induction false} CanStart(missing: Desired, todo: set<Uuid>, first: JobId)
    returns (added: map<Uuid, JobId>, created: map<JobId, Job>, next: JobId)
    requires todo <= missing.Keys
    ensures first <= next && (forall j :: j in created ==> first <= j < next)
    ensures added.Keys == todo
    ensures forall id :: id in added ==>
              added[id] in created && created[added[id]] == Job(id, missing[id], false, false)
    ensures forall j :: j in created ==> created[j].logger in added && added[created[j].logger] == j
    decreases |todo|
  {
    if todo == {} {
      added, created, next := map[], map[], first;
    } else {
      var id :| id in todo;
      added, created, next := CanStart(missing, todo - {id}, first);
      added, created := added[id := next], created[next := Job(id, missing[id], false, false)];
      next := next + 1;
    }
  }

  /** The reconcile lock can be given back: a listing may fail, and what is waited for ends. */
  lemma CanReconcile(s: State) returns (run: seq<State>)
    requires Invariant(s)
    ensures Run(run, Next) && run[0] == s && Invariant(run[|run| - 1]) && run[|run| - 1].reconciling == Idle
    ensures run[|run| - 1].stopped == s.stopped && run[|run| - 1].stopping == s.stopping
  {
    run := [s];
    if s.reconciling.Listing? {
      run := TakeStep(run, ListingFails);
    } else if s.reconciling.Waiting? {
      run := JobsCanExit(s, s.reconciling.removed);
      var t := run[|run| - 1];
      var added, created, next := CanStart(t.reconciling.missing, t.reconciling.missing.Keys, t.nextJob);
      run := TakeStep(run, ReconcileFinishes(added, created, next));
    }
  }

  /** With the lock free, the reconciler and every job can end. */
  lemma GroupCanEnd(s: State) returns (run: seq<State>)
    requires Invariant(s) && s.reconciling == Idle
    ensures Run(run, Next) && run[0] == s && Invariant(run[|run| - 1]) && run[|run| - 1].stopping == s.stopping
    ensures var t := run[|run| - 1]; t.GroupIsZero() && forall j :: !t.Live(j)
  {
    run := [s];
    if s.reconciler == Running {
      run := TakeStep(run, ReconcilerExits);
    }
    var t := run[|run| - 1];
    var more := JobsCanExit(t, t.table.Keys);
    run := Joined(run, more, Next);
    var end := run[|run| - 1];
    forall j | j in end.table ensures end.table[j].done {
      assert !end.Live(j);
    }
  }

  /** From every state that keeps the invariant, a stop that has begun can return. */
  lemma StopCanReturn(s: State) returns (run: seq<State>)
    requires Invariant(s) && s.stopped
    ensures Run(run, Next) && run[0] == s && run[|run| - 1].stopping == Returned
  {
    run := CanReconcile(s);
    var more := GroupCanEnd(run[|run| - 1]);
    run := Joined(run, more, Next);
    if run[|run| - 1].stopping.WaitingForJobs? {
      run := TakeStep(run, StopSawJobs);
    }
    if run[|run| - 1].stopping == WaitingForGroup {
      run := TakeStep(run, StopSawGroup);
    }
    if run[|run| - 1].stopping == Clearing {
      run := TakeStep(run, StopClears);
    }
  }
}
