/**
 * The in-process job registry of the ask tools (`_ASK_JOBS` in `chatgpt_web_mcp/_tools_impl.py`): at most one
 * background task per key, with entries removed by a cleanup that runs some time after the task is done.
 */
module Jobs {
  import opened Wrappers
  import opened Ledger

  type Task = nat

  datatype Kind = Send | ResumeWait

  datatype Job = Job(task: Task, kind: Kind)

  /**
   * `live` holds the tasks that are not done, `cleanups` the done tasks whose cleanup callback has not run yet,
   * and `keyOf` the key each task's callback was created with. Task names are never reused.
   */
  datatype Registry = Registry(
    jobs: map<Key, Job>,
    keyOf: map<Task, Key>,
    live: set<Task>,
    cleanups: set<Task>,
    next: Task)

  const EMPTY := Registry(map[], map[], {}, {}, 0)

  function Running(r: Registry, k: Key): Option<Job> {
    if k in r.jobs && r.jobs[k].task in r.live then Some(r.jobs[k]) else None
  }

  function GotOrStarted(r: Registry, k: Key, kind: Kind): Job {
    Running(r, k).GetOr(Job(r.next, kind))
  }

  function AfterGetOrStart(r: Registry, k: Key, kind: Kind): Registry {
    if Running(r, k).Some? then r
    else Registry(r.jobs[k := Job(r.next, kind)], r.keyOf[r.next := k], r.live + {r.next}, r.cleanups, r.next + 1)
  }

  function AfterDone(r: Registry, t: Task): Registry {
    if t in r.live then r.(live := r.live - {t}, cleanups := r.cleanups + {t}) else r
  }

  function AfterCleanup(r: Registry, t: Task): Registry {
    if t !in r.cleanups || t !in r.keyOf then r
    else
      var k := r.keyOf[t];
      var jobs := if k in r.jobs && r.jobs[k].task == t then r.jobs - {k} else r.jobs;
      r.(jobs := jobs, cleanups := r.cleanups - {t})
  }

  /** A new process: nothing is running and nothing is registered. */
  function AfterRestart(r: Registry): Registry {
    Registry(map[], map[], {}, {}, r.next)
  }

  class JobRegistry {
    var jobs: map<Key, Job>
    var keyOf: map<Task, Key>
    var live: set<Task>
    var cleanups: set<Task>
    var next: Task

    function Model(): Registry
      reads this
    {
      Registry(jobs, keyOf, live, cleanups, next)
    }

    constructor ()
      ensures Model() == EMPTY
    {
      jobs, keyOf, live, cleanups, next := map[], map[], {}, {}, 0;
    }

    method GetRunningJob(k: Key) returns (job: Option<Job>)
      ensures job == Running(Model(), k)
    {
      if k in jobs {
        var current := jobs[k];
        if current.task in live {
          return Some(current);
        }
      }
      return None;
    }

    method GetOrStartJob(k: Key, kind: Kind) returns (job: Job)
      modifies this
      ensures job == GotOrStarted(old(Model()), k, kind)
      ensures Model() == AfterGetOrStart(old(Model()), k, kind)
    {
      if k in jobs && jobs[k].task in live {
        return jobs[k];
      }
      if k in jobs {
        jobs := jobs - {k};
      }
      job := Job(next, kind);
      keyOf := keyOf[next := k];
      live := live + {next};
      jobs := jobs[k := job];
      next := next + 1;
      assert jobs == old(jobs)[k := job];
    }

    /** A task ends, normally or not; its callback schedules the cleanup. */
    method TaskDone(t: Task)
      modifies this`live, this`cleanups
      ensures Model() == AfterDone(old(Model()), t)
    {
      if t in live {
        live := live - {t};
        cleanups := cleanups + {t};
      }
    }

    method CleanupJob(t: Task)
      modifies this`jobs, this`cleanups
      ensures Model() == AfterCleanup(old(Model()), t)
    {
      if t in cleanups && t in keyOf {
        var k := keyOf[t];
        if k in jobs {
          var current := jobs[k];
          if current.task == t {
            jobs := jobs - {k};
          }
        }
        cleanups := cleanups - {t};
      }
    }
  }

  /**
   * A key with no live job gets a new one, of the kind asked for, and keeps it; a key with one keeps that one, whatever
   * kind is asked for. The jobs of other keys do not notice.
   */
  lemma StartsTheKindAskedFor(r: Registry, k: Key, kind: Kind, other: Key)
    requires Consistent(r)
    ensures var job := GotOrStarted(r, k, kind);
            var after := AfterGetOrStart(r, k, kind);
            && Running(after, k) == Some(job)
            && (Running(r, k).None? ==> job == Job(r.next, kind) && job.task !in r.keyOf && after.next > job.task)
            && (Running(r, k).Some? ==> Some(job) == Running(r, k) && after == r)
            && (other != k ==> Running(after, other) == Running(r, other))
  {
  }

  // ---- Single flight -----------------------------------------------------------------------------

  /** Every live task is the entry of its key, and every entry is live or about to be cleaned up. */
  predicate Consistent(r: Registry) {
    && r.live !! r.cleanups
    && (forall t | t in r.live + r.cleanups :: t in r.keyOf)
    && (forall t | t in r.keyOf :: t < r.next)
    && (forall t | t in r.live :: r.keyOf[t] in r.jobs && r.jobs[r.keyOf[t]].task == t)
    && (forall k | k in r.jobs ::
          var t := r.jobs[k].task;
          t in r.keyOf && r.keyOf[t] == k && t in r.live + r.cleanups)
  }

  datatype Event = GetOrStart(key: Key, kind: Kind) | Done(task: Task) | Cleanup(task: Task) | Restart

  function Step(r: Registry, e: Event): Registry {
    match e
    case GetOrStart(k, kind) => AfterGetOrStart(r, k, kind)
    case Done(t) => AfterDone(r, t)
    case Cleanup(t) => AfterCleanup(r, t)
    case Restart => AfterRestart(r)
  }

  function After(r: Registry, es: seq<Event>): Registry {
    if es == [] then r else Step(After(r, es[..|es| - 1]), es[|es| - 1])
  }

  lemma StepConsistent(r: Registry, e: Event)
    requires Consistent(r)
    ensures Consistent(Step(r, e))
  {
  }

  /** A cleanup takes no live task's entry away, whatever was started under the same key in the meantime. */
  lemma LateCleanupIsHarmless(r: Registry, t: Task, k: Key)
    requires Consistent(r)
    ensures Running(AfterCleanup(r, t), k) == Running(r, k)
    ensures k in r.jobs && r.jobs[k].task != t ==>
              k in AfterCleanup(r, t).jobs && AfterCleanup(r, t).jobs[k] == r.jobs[k]
  {
  }

  /**
   * Under every interleaving of starts, task ends, delayed cleanups and restarts: no two live tasks share a key,
   * each is what a lookup of its key finds, and once all tasks are done and cleaned up the registry is empty.
   */
  lemma {:induction false} SingleFlight(es: seq<Event>)
    ensures var r := After(EMPTY, es);
            && Consistent(r)
            && (forall t, u | t in r.live && u in r.live && r.keyOf[t] == r.keyOf[u] :: t == u)
            && (forall t | t in r.live :: Running(r, r.keyOf[t]).Some? && Running(r, r.keyOf[t]).value.task == t)
            && (r.live == {} && r.cleanups == {} ==> r.jobs == map[])
  {
    if es != [] {
      SingleFlight(es[..|es| - 1]);
      StepConsistent(After(EMPTY, es[..|es| - 1]), es[|es| - 1]);
    }
    var r := After(EMPTY, es);
    assert forall k | k in r.jobs :: r.jobs[k].task in r.live + r.cleanups;
  }
}
