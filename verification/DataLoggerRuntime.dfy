/** The runtime object of the Data Logger: the bodies of its critical sections, each a loop
    over maps in arbitrary order, proved to be the steps of LoggerRuntime. */
module DataLoggerRuntime {
  import opened Identifiers
  import L = LoggerRuntime

  class Runtime {
    var started: bool
    var stopped: bool
    var jobs: map<Uuid, L.JobId>
    var table: map<L.JobId, L.Job>
    var nextJob: L.JobId

    /** The abstract state, given where the concurrent calls stand. */
    ghost function State(reconciling: L.Reconciling, stopping: L.Stopping, reconciler: L.Reconciler): L.State
      reads this
    {
      L.State(started, stopped, jobs, table, nextJob, reconciling, stopping, reconciler)
    }

    /** Current jobs exist, and job numbers are below the next one. */
    ghost predicate Valid()
      reads this
    {
      && (forall id :: id in jobs ==> jobs[id] in table && table[jobs[id]].logger == id)
      && (forall j :: j in table ==> j < nextJob)
    }

    constructor ()
      ensures Valid() && State(L.Idle, L.NotStopping, L.NotStarted) == L.INITIAL
    {
      started, stopped := false, false;
      jobs, table, nextJob := map[], map[], 0;
    }

    method Start() returns (ok: bool)
      requires Valid()
      modifies this`started
      ensures Valid() && ok == !(old(started) || stopped)
      ensures ok ==> forall r, p, c :: State(r, p, c) == L.Perform(old(State(r, p, c)), L.Start)
      ensures !ok ==> started == old(started)
    {
      if started || stopped {
        return false;
      }
      started := true;
      return true;
    }

    /** The first section of Stop: no further starts, and every current job is cancelled. */
    method BeginStop() returns (initiated: bool, waitFor: set<L.JobId>)
      requires Valid()
      modifies this`stopped, this`table
      ensures Valid() && initiated == (started && !old(stopped))
      ensures initiated ==> waitFor == jobs.Values
      ensures initiated ==> forall r, p, c ::
                State(r, L.WaitingForJobs(waitFor), c) == L.Perform(old(State(r, p, c)), L.StopBegins)
      ensures !initiated ==> stopped == old(stopped) && table == old(table)
    {
      if !started || stopped {
        return false, {};
      }
      stopped := true;
      waitFor := {};
      var todo := jobs.Keys;
      while todo != {}
        invariant todo <= jobs.Keys && stopped
        invariant waitFor == set id | id in jobs && id !in todo :: jobs[id]
        invariant table == L.CancelJobs(old(table), waitFor)
        decreases todo
      {
        var id :| id in todo;
        todo := todo - {id};
        waitFor := waitFor + {jobs[id]};
        table := table[jobs[id] := table[jobs[id]].(cancelled := true)];
      }
      assert waitFor == jobs.Values;
      return true, waitFor;
    }

    /** The section of Reconcile that removes and cancels jobs no longer wanted as they are. */
    method CancelChanged(loggers: seq<L.Logger>) returns (missing: L.Desired, removed: set<L.JobId>)
      requires Valid()
      modifies this`jobs, this`table
      ensures Valid()
      ensures removed == L.Removed(old(jobs), old(table), L.DesiredOf(loggers))
      ensures missing == L.DesiredOf(loggers) - jobs.Keys
      // Exactly the jobs whose logger is still wanted, with the fingerprint they run with, stay.
      ensures forall id :: id in jobs <==>
                id in old(jobs) && L.Wanted(loggers, id, old(table)[old(jobs)[id]].fingerprint)
      ensures forall id :: id in jobs ==> jobs[id] == old(jobs)[id]
      ensures forall id, fingerprint ::
                id in missing && missing[id] == fingerprint <==> id !in jobs && L.Wanted(loggers, id, fingerprint)
      ensures forall caller, p, c ::
                State(L.Waiting(caller, L.DesiredOf(loggers), missing, removed, old(jobs)), p, c)
                == L.Perform(old(State(L.Listing(caller), p, c)), L.Listed(loggers))
    {
      var desired := CollectDesired(loggers);
      missing, removed := desired, {};
      ghost var before, rows := jobs, table;
      var todo := jobs.Keys;
      while todo != {}
        invariant Swept(before, rows, desired, todo, jobs, missing, removed) && Cancelled(rows, removed, table)
        decreases todo
      {
        var id :| id in todo;
        var job := jobs[id];
        SweepOne(before, rows, desired, todo, jobs, missing, removed, id);
        CancelOne(rows, removed, table, job);
        if id in desired && table[job].fingerprint == desired[id] {
          missing := missing - {id};
        } else {
          jobs, removed := jobs - {id}, removed + {job};
          table := table[job := table[job].(cancelled := true)];
        }
        todo := todo - {id};
      }
      SweptAll(before, rows, desired, jobs, missing, removed);
      KeptAreWanted(before, rows, loggers);
    }

    method CollectDesired(loggers: seq<L.Logger>) returns (desired: L.Desired)
      ensures desired == L.DesiredOf(loggers)
      ensures forall id, fingerprint ::
                id in desired && desired[id] == fingerprint <==> L.Wanted(loggers, id, fingerprint)
    {
      desired := map[];
      for i := 0 to |loggers|
        invariant desired == L.DesiredOf(loggers[..i])
      {
        assert loggers[..i + 1][..i] == loggers[..i];
        if loggers[i].id != NIL && loggers[i].enabled {
          desired := desired[loggers[i].id := loggers[i].fingerprint];
        }
      }
      assert loggers[..|loggers|] == loggers;
      forall id, fingerprint
        ensures id in desired && desired[id] == fingerprint <==> L.Wanted(loggers, id, fingerprint)
      {
        L.DesiredIsWanted(loggers, id, fingerprint);
      }
    }

    /** The last section of Reconcile: a new job for every missing logger, unless a stop
        has begun. */
    method StartMissing(missing: L.Desired)
        returns (ok: bool, ghost added: map<Uuid, L.JobId>, ghost created: map<L.JobId, L.Job>)
      requires Valid() && missing.Keys !! jobs.Keys
      modifies this`jobs, this`table, this`nextJob
      ensures Valid() && ok == !stopped
      ensures !ok ==> jobs == old(jobs) && table == old(table) && nextJob == old(nextJob)
      ensures ok ==>
                && L.StartsMissing(missing, old(nextJob), added, created)
                && jobs == old(jobs) + added && table == old(table) + created
                && old(nextJob) <= nextJob && forall j :: j in created ==> j < nextJob
    {
      added, created := map[], map[];
      if stopped {
        return false, added, created;
      }
      var todo := missing.Keys;
      while todo != {}
        invariant todo <= missing.Keys && !stopped
        invariant StartedSome(missing, todo, old(nextJob), nextJob, added, created)
        invariant IsUnion(old(jobs), added, jobs) && IsUnion(old(table), created, table)
        decreases todo
      {
        var id :| id in todo;
        var job := L.Job(id, missing[id], false, false);
        StartOne(missing, todo, old(nextJob), nextJob, added, created, id);
        UpdateUnion(old(jobs), added, jobs, id, nextJob);
        UpdateUnion(old(table), created, table, nextJob, job);
        jobs := jobs[id := nextJob];
        table := table[nextJob := job];
        added, created := added[id := nextJob], created[nextJob := job];
        nextJob := nextJob + 1;
        todo := todo - {id};
      }
      StartedAreFiled(missing, old(nextJob), nextJob, added, created, old(jobs), old(table));
      return true, added, created;
    }
  }

  // ---------------------------------------------------------------- loop steps

  /** The sweep has dealt with every current job outside `todo`. */
  ghost predicate Swept(before: map<Uuid, L.JobId>, rows: map<L.JobId, L.Job>, desired: L.Desired, todo: set<Uuid>,
                        jobs: map<Uuid, L.JobId>, missing: L.Desired, removed: set<L.JobId>)
  {
    && (forall id :: id in before ==> before[id] in rows)
    && todo <= before.Keys
    && (forall id :: id in jobs <==> id in before && (id in todo || L.Keeps(before, rows, desired, id)))
    && (forall id :: id in jobs ==> jobs[id] == before[id])
    && removed == (set id | id in before && id !in todo && !L.Keeps(before, rows, desired, id) :: before[id])
    && missing == desired - (set id | id in before && id !in todo && L.Keeps(before, rows, desired, id))
  }

  lemma SweepOne(before: map<Uuid, L.JobId>, rows: map<L.JobId, L.Job>, desired: L.Desired, todo: set<Uuid>,
                 jobs: map<Uuid, L.JobId>, missing: L.Desired, removed: set<L.JobId>, id: Uuid)
    requires Swept(before, rows, desired, todo, jobs, missing, removed) && id in todo
    ensures id in jobs && jobs[id] in rows
    ensures id in desired && rows[jobs[id]].fingerprint == desired[id] ==>
              Swept(before, rows, desired, todo - {id}, jobs, missing - {id}, removed)
    ensures !(id in desired && rows[jobs[id]].fingerprint == desired[id]) ==>
              Swept(before, rows, desired, todo - {id}, jobs - {id}, missing, removed + {jobs[id]})
  {
    var rest := todo - {id};
    var kept := set x | x in before && x !in todo && L.Keeps(before, rows, desired, x);
    if L.Keeps(before, rows, desired, id) {
      assert (set x | x in before && x !in rest && L.Keeps(before, rows, desired, x)) == kept + {id};
      assert desired - (kept + {id}) == missing - {id};
    } else {
      assert (set x | x in before && x !in rest && L.Keeps(before, rows, desired, x)) == kept;
    }
  }

  lemma SweptAll(before: map<Uuid, L.JobId>, rows: map<L.JobId, L.Job>, desired: L.Desired,
                 jobs: map<Uuid, L.JobId>, missing: L.Desired, removed: set<L.JobId>)
    requires Swept(before, rows, desired, {}, jobs, missing, removed)
    ensures jobs == L.Kept(before, rows, desired) && removed == L.Removed(before, rows, desired)
    ensures missing == desired - jobs.Keys
  {
  }

  ghost predicate Cancelled(rows: map<L.JobId, L.Job>, removed: set<L.JobId>, table: map<L.JobId, L.Job>) {
    table == L.CancelJobs(rows, removed)
  }

  lemma KeptAreWanted(before: map<Uuid, L.JobId>, rows: map<L.JobId, L.Job>, loggers: seq<L.Logger>)
    requires forall id :: id in before ==> before[id] in rows
    ensures forall id :: id in L.Kept(before, rows, L.DesiredOf(loggers)) <==>
              id in before && L.Wanted(loggers, id, rows[before[id]].fingerprint)
  {
    forall id | id in before
      ensures L.Keeps(before, rows, L.DesiredOf(loggers), id) <==> L.Wanted(loggers, id, rows[before[id]].fingerprint)
    {
      L.DesiredIsWanted(loggers, id, rows[before[id]].fingerprint);
    }
  }

  lemma CancelOne(rows: map<L.JobId, L.Job>, removed: set<L.JobId>, table: map<L.JobId, L.Job>, job: L.JobId)
    requires job in rows && Cancelled(rows, removed, table)
    ensures job in table && table[job].fingerprint == rows[job].fingerprint
    ensures Cancelled(rows, removed + {job}, table[job := table[job].(cancelled := true)])
  {
  }

  ghost predicate IsUnion<K, V>(m: map<K, V>, a: map<K, V>, u: map<K, V>) {
    u == m + a
  }

  lemma UpdateUnion<K, V>(m: map<K, V>, a: map<K, V>, u: map<K, V>, k: K, v: V)
    requires IsUnion(m, a, u)
    ensures IsUnion(m, a[k := v], u[k := v])
  {
  }

  /** New jobs have been made for every missing logger outside `todo`. */
  ghost predicate StartedSome(missing: L.Desired, todo: set<Uuid>, first: L.JobId, next: L.JobId,
                              added: map<Uuid, L.JobId>, created: map<L.JobId, L.Job>)
  {
    && first <= next && added.Keys == missing.Keys - todo
    && (forall id :: id in added ==>
          added[id] in created && created[added[id]] == L.Job(id, missing[id], false, false))
    && (forall j :: j in created ==>
          first <= j < next && created[j].logger in added && added[created[j].logger] == j)
  }

  lemma StartedAreFiled(missing: L.Desired, first: L.JobId, next: L.JobId, added: map<Uuid, L.JobId>,
                        created: map<L.JobId, L.Job>, jobs: map<Uuid, L.JobId>, table: map<L.JobId, L.Job>)
    requires StartedSome(missing, {}, first, next, added, created)
    requires forall id :: id in jobs ==> jobs[id] in table && table[jobs[id]].logger == id
    requires forall j :: j in table ==> j < first
    ensures L.StartsMissing(missing, first, added, created)
    ensures forall id :: id in jobs + added ==>
              (jobs + added)[id] in table + created && (table + created)[(jobs + added)[id]].logger == id
    ensures forall j :: j in table + created ==> j < next
  {
  }

  lemma StartOne(missing: L.Desired, todo: set<Uuid>, first: L.JobId, next: L.JobId,
                 added: map<Uuid, L.JobId>, created: map<L.JobId, L.Job>, id: Uuid)
    requires StartedSome(missing, todo, first, next, added, created) && id in todo && id in missing
    ensures StartedSome(missing, todo - {id}, first, next + 1,
                        added[id := next], created[next := L.Job(id, missing[id], false, false)])
  {
  }
}
