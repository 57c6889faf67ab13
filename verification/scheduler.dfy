/**
  The background scheduler, reduced to its job store: a map from job id to
  job. Only the four calls the lifecycle controller makes are modelled —
  `get_job`, `add_job`, `pause_job` and `resume_job` — each as one atomic
  transition. Timer firing, run-time computation and the worker thread are
  not part of this model.
 */
module Scheduler {
  import opened Wrappers

  type JobId = string

  /** The trigger a job is created with: the `'interval'` alias with a period
      in seconds, or the `'cron'` alias firing daily at hour:minute. */
  datatype Trigger =
    | Interval(seconds: nat)
    | Cron(hour: nat, minute: nat)

  /** The callable a job runs; only its identity matters here. */
  datatype Action = TakeScreenshot | ClearMedia

  /** A paused job keeps its place in the store but is skipped on every tick. */
  datatype Status = Active | Paused

  datatype Job = Job(trigger: Trigger, action: Action, status: Status)

  /** The errors the scheduler raises for the calls modelled here:
      `ConflictingIdError` from `add_job`, `JobLookupError` from
      `pause_job` / `resume_job`. */
  datatype SchedulerError =
    | ConflictingId(id: JobId)
    | JobLookup(id: JobId)

  type Registry = map<JobId, Job>

  /** `get_job(id)`: the job stored under `id`, or nothing. */
  function GetJob(reg: Registry, id: JobId): (r: Option<Job>)
    ensures r.Some? <==> id in reg
    ensures r.Some? ==> r.value == reg[id]
  {
    if id in reg then Some(reg[id]) else None
  }

  /** `after` is `before` with the job `id` moved to `status`: the same ids,
      the same trigger and callable for `id`, every other job untouched. */
  ghost predicate OnlyStatusChanged(before: Registry, after: Registry, id: JobId, status: Status)
  {
    && id in before
    && after.Keys == before.Keys
    && after[id].trigger == before[id].trigger
    && after[id].action == before[id].action
    && after[id].status == status
    && forall k :: k in before && k != id ==> after[k] == before[k]
  }

  /** `add_job(func, trigger, id=id)`: stores a new job, scheduled (Active),
      under a fresh id; a taken id raises instead of adding a second job. */
  function AddJob(reg: Registry, id: JobId, trigger: Trigger, action: Action): (r: Result<Registry, SchedulerError>)
    ensures r.Success? <==> id !in reg
    ensures r.Failure? ==> r.error == ConflictingId(id)
    ensures r.Success? ==> r.value.Keys == reg.Keys + {id}
    ensures r.Success? ==> r.value[id] == Job(trigger, action, Active)
    ensures r.Success? ==> forall k :: k in reg ==> r.value[k] == reg[k]
  {
    if id in reg then Failure(ConflictingId(id))
    else Success(reg[id := Job(trigger, action, Active)])
  }

  function SetStatus(reg: Registry, id: JobId, status: Status): Result<Registry, SchedulerError>
  {
    if id in reg then Success(reg[id := reg[id].(status := status)])
    else Failure(JobLookup(id))
  }

  /** `pause_job(id)`: the job stays stored with its trigger but is Paused;
      an unknown id raises `JobLookupError`. */
  function PauseJob(reg: Registry, id: JobId): (r: Result<Registry, SchedulerError>)
    ensures r.Success? <==> id in reg
    ensures r.Failure? ==> r.error == JobLookup(id)
    ensures r.Success? ==> OnlyStatusChanged(reg, r.value, id, Paused)
  {
    SetStatus(reg, id, Paused)
  }

  /** `resume_job(id)`: the job becomes Active again with the trigger it was
      created with; an unknown id raises `JobLookupError`. */
  function ResumeJob(reg: Registry, id: JobId): (r: Result<Registry, SchedulerError>)
    ensures r.Success? <==> id in reg
    ensures r.Failure? ==> r.error == JobLookup(id)
    ensures r.Success? ==> OnlyStatusChanged(reg, r.value, id, Active)
  {
    SetStatus(reg, id, Active)
  }

  /** Resuming a job that was just paused gives back the store it was paused
      from, provided the job was Active. */
  lemma PauseThenResume(reg: Registry, id: JobId)
    requires id in reg && reg[id].status == Active
    ensures PauseJob(reg, id).Success?
    ensures ResumeJob(PauseJob(reg, id).value, id) == Success(reg)
  {
    var paused := PauseJob(reg, id).value;
    assert paused[id := paused[id].(status := Active)] == reg;
  }

  /** Pausing twice is the same as pausing once. */
  lemma PauseIdempotent(reg: Registry, id: JobId)
    requires id in reg
    ensures PauseJob(PauseJob(reg, id).value, id) == PauseJob(reg, id)
  {
    var once := PauseJob(reg, id).value;
    assert once[id := once[id].(status := Paused)] == once;
  }
}
