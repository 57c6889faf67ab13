/**
  The start/stop lifecycle controller: the `isrunning` flag together with the
  scheduler's job store, driven by the `start_screenshot` and
  `stop_screenshot` handlers. Each handler call is one atomic transition; a
  scheduler error raised inside a handler ends the call with a server error
  and keeps whatever the handler had already changed (there is no rollback,
  and the flag is only written as the last step).
 */
module Controller {
  import opened Wrappers
  import opened Scheduler

  const ScreenshotJob: JobId := "screenshot_job"
  const ClearMediaJob: JobId := "clear_media_job"

  /** Capture every 5 seconds. */
  const ScreenshotTrigger: Trigger := Interval(5)
  /** Purge the media directory daily at 23:42. */
  const ClearMediaTrigger: Trigger := Cron(23, 42)

  const StartedMessage: string := "Screenshot taking started"
  const StoppedMessage: string := "Screenshot taking stopped"

  /** The process-wide flag and the scheduler it drives. */
  datatype State = State(running: bool, registry: Registry)

  /** The state at process start: flag clear, no jobs. */
  const Initial: State := State(false, map[])

  /** The handler's response: the JSON message, or the server error an
      uncaught scheduler exception becomes. */
  datatype Reply = Message(text: string) | ServerError(error: SchedulerError)

  datatype Outcome = Outcome(state: State, reply: Reply)

  datatype Command = Start | Stop

  /** The job `id` is stored with exactly this trigger, callable and status. */
  ghost predicate Registered(reg: Registry, id: JobId, trigger: Trigger, action: Action, status: Status)
  {
    id in reg && reg[id] == Job(trigger, action, status)
  }

  /** Both named jobs are stored with their creation triggers, in `status`. */
  ghost predicate BothJobs(reg: Registry, status: Status)
  {
    && Registered(reg, ScreenshotJob, ScreenshotTrigger, TakeScreenshot, status)
    && Registered(reg, ClearMediaJob, ClearMediaTrigger, ClearMedia, status)
  }

  /** The flag/registry sync invariant: only the two named jobs ever exist;
      the flag is set exactly when both are Active; with the flag clear they
      are both absent or both Paused. */
  ghost predicate Inv(s: State)
  {
    && s.registry.Keys <= {ScreenshotJob, ClearMediaJob}
    && (s.running ==> BothJobs(s.registry, Active))
    && (!s.running ==> s.registry == map[] || BothJobs(s.registry, Paused))
  }

  /** The `get_job`-guarded create-or-resume in `start_screenshot`:
      `add_job` when `get_job` finds nothing, and `resume_job` otherwise. Neither branch can raise, since each call is
      guarded by the lookup. */
  function CreateOrResume(reg: Registry, id: JobId, trigger: Trigger, action: Action): (r: Result<Registry, SchedulerError>)
    ensures r.Success?
    ensures r.value.Keys == reg.Keys + {id}
    ensures id !in reg ==> r.value[id] == Job(trigger, action, Active)
    ensures id in reg ==> r.value[id] == reg[id].(status := Active)
    ensures forall k :: k in reg && k != id ==> r.value[k] == reg[k]
  {
    if GetJob(reg, id).None? then AddJob(reg, id, trigger, action)
    else ResumeJob(reg, id)
  }

  /** `start_screenshot`. A set flag makes it a no-op; otherwise both jobs
      are created or resumed and the flag is set. It always answers with the
      started message. */
  function StartScreenshot(s: State): (o: Outcome)
    ensures o.reply == Message(StartedMessage)
    ensures o.state.running
    ensures s.running ==> o.state == s
    ensures !s.running ==> o.state.registry.Keys == s.registry.Keys + {ScreenshotJob, ClearMediaJob}
    ensures !s.running ==> forall id :: id in {ScreenshotJob, ClearMediaJob} ==> o.state.registry[id].status == Active
    ensures !s.running && ScreenshotJob !in s.registry ==>
      o.state.registry[ScreenshotJob] == Job(ScreenshotTrigger, TakeScreenshot, Active)
    ensures !s.running && ClearMediaJob !in s.registry ==>
      o.state.registry[ClearMediaJob] == Job(ClearMediaTrigger, ClearMedia, Active)
    ensures !s.running ==> forall id :: id in s.registry ==>
      && o.state.registry[id].trigger == s.registry[id].trigger
      && o.state.registry[id].action == s.registry[id].action
    ensures !s.running ==> forall id :: id in s.registry && id !in {ScreenshotJob, ClearMediaJob} ==>
      o.state.registry[id] == s.registry[id]
  {
    if s.running then Outcome(s, Message(StartedMessage))
    else
      match CreateOrResume(s.registry, ScreenshotJob, ScreenshotTrigger, TakeScreenshot)
      case Failure(e) => Outcome(s, ServerError(e))
      case Success(reg1) =>
        match CreateOrResume(reg1, ClearMediaJob, ClearMediaTrigger, ClearMedia)
        case Failure(e) => Outcome(State(s.running, reg1), ServerError(e))
        case Success(reg2) => Outcome(State(true, reg2), Message(StartedMessage))
  }

  /** `stop_screenshot`. A clear flag makes it a no-op; otherwise both jobs
      are paused and the flag is cleared. `pause_job` raises for a job that
      is not stored, and then the flag stays set. */
  function StopScreenshot(s: State): (o: Outcome)
    ensures !s.running ==> o == Outcome(s, Message(StoppedMessage))
    ensures s.running ==>
      (o.reply.Message? <==> ScreenshotJob in s.registry && ClearMediaJob in s.registry)
    ensures o.reply.Message? ==> o.reply.text == StoppedMessage && !o.state.running
    ensures o.reply.ServerError? ==> o.state.running && o.reply.error.JobLookup?
    ensures s.running && ScreenshotJob !in s.registry ==>
      o == Outcome(s, ServerError(JobLookup(ScreenshotJob)))
    ensures s.running && ScreenshotJob in s.registry && ClearMediaJob !in s.registry ==>
      o == Outcome(State(true, s.registry[ScreenshotJob := s.registry[ScreenshotJob].(status := Paused)]),
                   ServerError(JobLookup(ClearMediaJob)))
    ensures s.running && o.reply.Message? ==>
      && o.state.registry.Keys == s.registry.Keys
      && o.state.registry[ScreenshotJob] == s.registry[ScreenshotJob].(status := Paused)
      && o.state.registry[ClearMediaJob] == s.registry[ClearMediaJob].(status := Paused)
      && forall id :: id in s.registry && id !in {ScreenshotJob, ClearMediaJob} ==>
           o.state.registry[id] == s.registry[id]
  {
    if !s.running then Outcome(s, Message(StoppedMessage))
    else
      match PauseJob(s.registry, ScreenshotJob)
      case Failure(e) => Outcome(s, ServerError(e))
      case Success(reg1) =>
        match PauseJob(reg1, ClearMediaJob)
        case Failure(e) => Outcome(State(s.running, reg1), ServerError(e))
        case Success(reg2) => Outcome(State(false, reg2), Message(StoppedMessage))
  }

  /** One handler call. */
  function Step(s: State, c: Command): Outcome
  {
    match c
    case Start => StartScreenshot(s)
    case Stop => StopScreenshot(s)
  }

  /** The fixed message each command answers with. */
  function MessageFor(c: Command): string
  {
    match c
    case Start => StartedMessage
    case Stop => StoppedMessage
  }

  /** The state after handling `cmds` in order, one call at a time. */
  function Run(s: State, cmds: seq<Command>): State
    decreases |cmds|
  {
    if cmds == [] then s
    else Step(Run(s, cmds[..|cmds| - 1]), cmds[|cmds| - 1]).state
  }

  /** The replies to `cmds`, in order. */
  function Replies(s: State, cmds: seq<Command>): (r: seq<Reply>)
    ensures |r| == |cmds|
    decreases |cmds|
  {
    if cmds == [] then []
    else
      var prefix := cmds[..|cmds| - 1];
      Replies(s, prefix) + [Step(Run(s, prefix), cmds[|cmds| - 1]).reply]
  }

  // ---------------------------------------------------------------------
  // Properties of single transitions
  // ---------------------------------------------------------------------

  lemma InitialSatisfiesInv()
    ensures Inv(Initial)
  {
  }

  /** With the invariant, the flag is set exactly when both jobs are stored
      and Active. */
  lemma InvFlagIff(s: State)
    requires Inv(s)
    ensures s.running <==>
      && ScreenshotJob in s.registry && s.registry[ScreenshotJob].status == Active
      && ClearMediaJob in s.registry && s.registry[ClearMediaJob].status == Active
  {
  }

  /** The first start registers exactly the two jobs, both Active, with
      their fixed triggers, and sets the flag. */
  lemma StartFromInitial()
    ensures StartScreenshot(Initial) ==
      Outcome(State(true, map[ScreenshotJob := Job(ScreenshotTrigger, TakeScreenshot, Active),
                              ClearMediaJob := Job(ClearMediaTrigger, ClearMedia, Active)]),
              Message(StartedMessage))
  {
  }

  lemma StartPreservesInv(s: State)
    requires Inv(s)
    ensures Inv(StartScreenshot(s).state)
  {
  }

  /** With the invariant, `stop` never reaches `pause_job` for a missing job:
      it always answers with the stopped message. */
  lemma StopNeverFails(s: State)
    requires Inv(s)
    ensures StopScreenshot(s).reply == Message(StoppedMessage)
  {
  }

  lemma StopPreservesInv(s: State)
    requires Inv(s)
    ensures Inv(StopScreenshot(s).state)
  {
  }

  /** Starting twice in a row is the same as starting once. */
  lemma StartIdempotent(s: State)
    ensures StartScreenshot(StartScreenshot(s).state) == StartScreenshot(s)
  {
  }

  /** Stopping twice in a row is the same as stopping once: a stop that
      succeeded leaves the flag clear, and one that failed fails again the
      same way. */
  lemma StopIdempotent(s: State)
    ensures StopScreenshot(StopScreenshot(s).state) == StopScreenshot(s)
  {
  }

  /** Stop followed by start gives back the running state exactly: the jobs
      are resumed, not registered again, and keep their triggers. */
  lemma StopThenStartRestores(s: State)
    requires Inv(s) && s.running
    ensures StartScreenshot(StopScreenshot(s).state).state == s
  {
  }

  // ---------------------------------------------------------------------
  // Properties of command sequences
  // ---------------------------------------------------------------------

  lemma {:induction false} RunPreservesInv(s: State, cmds: seq<Command>)
    requires Inv(s)
    ensures Inv(Run(s, cmds))
    decreases |cmds|
  {
    if cmds != [] {
      var prefix := cmds[..|cmds| - 1];
      RunPreservesInv(s, prefix);
      match cmds[|cmds| - 1]
      case Start => StartPreservesInv(Run(s, prefix));
      case Stop => StopPreservesInv(Run(s, prefix));
    }
  }

  /** Every call in a sequence that starts from an invariant state answers
      with its command's fixed message: no scheduler error is ever raised. */
  lemma {:induction false} RunNeverFails(s: State, cmds: seq<Command>)
    requires Inv(s)
    ensures forall i :: 0 <= i < |cmds| ==> Replies(s, cmds)[i] == Message(MessageFor(cmds[i]))
    decreases |cmds|
  {
    if cmds != [] {
      var prefix := cmds[..|cmds| - 1];
      RunNeverFails(s, prefix);
      RunPreservesInv(s, prefix);
      var last := cmds[|cmds| - 1];
      if last == Stop {
        StopNeverFails(Run(s, prefix));
      }
      forall i | 0 <= i < |cmds|
        ensures Replies(s, cmds)[i] == Message(MessageFor(cmds[i]))
      {
        if i < |prefix| {
          assert Replies(s, cmds)[i] == Replies(s, prefix)[i];
          assert cmds[i] == prefix[i];
        }
      }
    }
  }

  /** After a non-empty sequence the flag is set iff the last call was
      `start`. */
  lemma {:induction false} RunFlagIsLastCommand(s: State, cmds: seq<Command>)
    requires Inv(s) && cmds != []
    ensures Run(s, cmds).running <==> cmds[|cmds| - 1] == Start
  {
    var prefix := cmds[..|cmds| - 1];
    RunPreservesInv(s, prefix);
    if cmds[|cmds| - 1] == Stop {
      StopNeverFails(Run(s, prefix));
    }
  }

  /** From the initial state the store is empty until the first `start`, and
      from then on holds exactly the two named jobs: no job is ever added
      twice and none is ever removed. */
  lemma {:induction false} RunRegistryKeys(cmds: seq<Command>)
    ensures Run(Initial, cmds).registry.Keys ==
      if Start in cmds then {ScreenshotJob, ClearMediaJob} else {}
    decreases |cmds|
  {
    if cmds != [] {
      var prefix := cmds[..|cmds| - 1];
      var last := cmds[|cmds| - 1];
      RunRegistryKeys(prefix);
      RunPreservesInv(Initial, prefix);
      assert cmds == prefix + [last];
      assert (Start in cmds) <==> (Start in prefix || last == Start);
      if last == Stop {
        StopNeverFails(Run(Initial, prefix));
      }
    }
  }

  /** Every job stored after any sequence keeps the trigger and callable it
      was created with. */
  lemma RunKeepsTriggers(cmds: seq<Command>)
    ensures ScreenshotJob in Run(Initial, cmds).registry ==>
      Run(Initial, cmds).registry[ScreenshotJob].trigger == ScreenshotTrigger
    ensures ClearMediaJob in Run(Initial, cmds).registry ==>
      Run(Initial, cmds).registry[ClearMediaJob].trigger == ClearMediaTrigger
  {
  }
}
