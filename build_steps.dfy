// Step progression of a build through its config (`_next_job_values`) and
// the scheduler's decision while a step's container is starting or running.
module BuildSteps {
  import opened Wrappers
  import opened BuildOrder

  /**
   * A config step: its id, whether it has a `domain_filter`, and whether its
   * `_step_state()` is 'running' (otherwise 'testing').
   */
  datatype Step = Step(id: nat, hasDomainFilter: bool, runs: bool)

  function StepState(s: Step): BuildState
  {
    if s.runs then Running else Testing
  }

  /**
   * The dictionary `_next_job_values` returns: `active_step`, `local_state` and,
   * only when the config lost the current step, `local_result`.
   */
  datatype JobValues = JobValues(activeStep: Option<nat>, localState: BuildState, localResult: Option<BuildResult>)

  /** A step runs unless its domain filter rejects the build (`domainHolds` evaluates the filter). */
  predicate Eligible(s: Step, domainHolds: nat -> bool)
  {
    !s.hasDomainFilter || domainHolds(s.id)
  }

  predicate HasStep(steps: seq<Step>, id: nat)
  {
    exists i :: 0 <= i < |steps| && steps[i].id == id
  }

  /** `step_ids.index(active_step)`: the first position of the step. */
  function StepIndex(steps: seq<Step>, id: nat): (i: nat)
    requires HasStep(steps, id)
    ensures i < |steps| && steps[i].id == id
    ensures forall j :: 0 <= j < i ==> steps[j].id != id
  {
    if steps[0].id == id then 0
    else
      assert HasStep(steps[1..], id) by {
        var i :| 0 <= i < |steps| && steps[i].id == id;
        assert steps[1..][i - 1].id == id;
      }
      1 + StepIndex(steps[1..], id)
  }

  /** First eligible position at or after `from`, `|steps|` when there is none. */
  function FirstEligible(steps: seq<Step>, from: nat, domainHolds: nat -> bool): (k: nat)
    requires from <= |steps|
    ensures from <= k <= |steps|
    ensures k < |steps| ==> Eligible(steps[k], domainHolds)
    ensures forall j :: from <= j < k ==> !Eligible(steps[j], domainHolds)
    decreases |steps| - from
  {
    if from == |steps| || Eligible(steps[from], domainHolds) then from
    else FirstEligible(steps, from + 1, domainHolds)
  }

  /** Where the search for the next step starts: 0 for a build that has not started, else after the current step. */
  function StartIndex(steps: seq<Step>, activeStep: Option<nat>): nat
    requires activeStep.Some? ==> HasStep(steps, activeStep.value)
  {
    if activeStep.None? then 0 else StepIndex(steps, activeStep.value) + 1
  }

  /**
   * `_next_job_values`. No steps, or no current step on a build that is not
   * pending, finishes the build; a current step missing from the config
   * finishes it with at least 'ko'; otherwise the next step whose domain filter
   * accepts the build becomes active (its state 'testing' or 'running'), and
   * running past the last step finishes the build.
   */
  method NextJobValues(steps: seq<Step>, activeStep: Option<nat>, localState: BuildState,
                       localResult: Option<BuildResult>, domainHolds: nat -> bool)
    returns (v: JobValues)
    ensures steps == [] ==> v == JobValues(None, Done, None)
    ensures activeStep.None? && localState != Pending ==> v == JobValues(None, Done, None)
    ensures steps != [] && activeStep.Some? && !HasStep(steps, activeStep.value) ==>
      v == JobValues(None, Done, Some(WorstResult([localResult, Some(Ko)], None)))
    ensures steps != [] && (activeStep.None? ==> localState == Pending) && (activeStep.Some? ==> HasStep(steps, activeStep.value)) ==>
      var start := StartIndex(steps, activeStep);
      (forall j :: start <= j < |steps| ==> !Eligible(steps[j], domainHolds)) <==> v.activeStep.None?
    ensures steps != [] && (activeStep.None? ==> localState == Pending) && (activeStep.Some? ==> HasStep(steps, activeStep.value)) ==>
      var k := FirstEligible(steps, StartIndex(steps, activeStep), domainHolds);
      v == if k < |steps| then JobValues(Some(steps[k].id), StepState(steps[k]), None) else JobValues(None, Done, None)
  {
    if steps == [] {
      return JobValues(None, Done, None);
    }
    if activeStep.None? && localState != Pending {
      return JobValues(None, Done, None);
    }
    var next: nat;
    if activeStep.None? {
      next := 0;
    } else {
      if !HasStep(steps, activeStep.value) {
        return JobValues(None, Done, Some(WorstResult([localResult, Some(Ko)], None)));
      }
      next := StepIndex(steps, activeStep.value) + 1;
    }
    ghost var start := next;
    while true
      invariant start <= next <= |steps|
      invariant start == StartIndex(steps, activeStep)
      invariant forall j :: start <= j < next ==> !Eligible(steps[j], domainHolds)
      decreases |steps| - next
    {
      if next >= |steps| {
        return JobValues(None, Done, None);
      }
      var step := steps[next];
      if step.hasDomainFilter && !domainHolds(step.id) {
        next := next + 1;
        continue;
      }
      return JobValues(Some(step.id), StepState(step), None);
    }
  }

  /** `job_time` at instant `now`: end minus start, or elapsed since the start, or 0. */
  function JobTime(jobStart: Option<int>, jobEnd: Option<int>, now: int): int
  {
    if jobEnd.Some? && jobStart.Some? then jobEnd.value - jobStart.value
    else if jobStart.Some? then now - jobStart.value
    else 0
  }

  /** What `docker_state` reports for the step's container. */
  datatype DockerState = DockerRunning | DockerUnknown | DockerGhost | DockerEnded

  /** What `_schedule` does with one build after looking at its container. */
  datatype Decision =
    | KeepWaiting          // container still running within its time budget
    | KillTimedOut         // `_kill('killed')`
    | GraceWait            // container not visible yet, less than 60s since it was started
    | NoStartReference     // neither docker_start nor job_start is set: `dt2time(False)` fails
    | CollectResults       // make the step's results and move on

  /**
   * The grace-period decision of `_schedule`: a running container is left alone
   * unless a testing build exceeded `min(cpu_limit, runbot_timeout)`; a missing
   * container of a running build or docker step gets 60 seconds from
   * `docker_start` (else `job_start`) before the step is closed.
   */
  function ScheduleDecision(docker: DockerState, localState: BuildState, isDockerStep: bool,
                            jobTime: int, cpuLimit: int, runbotTimeout: int,
                            now: int, dockerStart: Option<int>, jobStart: Option<int>): Decision
  {
    if docker == DockerRunning then
      var timeout := if cpuLimit <= runbotTimeout then cpuLimit else runbotTimeout;
      if localState != Running && jobTime > timeout then KillTimedOut else KeepWaiting
    else if (docker == DockerUnknown || docker == DockerGhost) && (localState == Running || isDockerStep) then
      if dockerStart.None? && jobStart.None? then NoStartReference
      else
        var elapsed := now - (if dockerStart.Some? then dockerStart.value else jobStart.value);
        if elapsed < 60 then GraceWait else CollectResults
    else CollectResults
  }

  /**
   * The grace window: a build whose container is not visible is only closed
   * once 60 seconds have passed since the container was started, and a running
   * container is never closed, only killed when a testing build ran too long.
   */
  lemma GraceWindow(docker: DockerState, localState: BuildState, isDockerStep: bool,
                    jobTime: int, cpuLimit: int, runbotTimeout: int,
                    now: int, dockerStart: Option<int>, jobStart: Option<int>)
    ensures var d := ScheduleDecision(docker, localState, isDockerStep, jobTime, cpuLimit, runbotTimeout, now, dockerStart, jobStart);
      && (d == KillTimedOut <==> docker == DockerRunning && localState != Running && (jobTime > cpuLimit || jobTime > runbotTimeout))
      && (docker == DockerRunning ==> d in {KeepWaiting, KillTimedOut})
      && (d == GraceWait ==> docker in {DockerUnknown, DockerGhost}
                             && now - (if dockerStart.Some? then dockerStart.value else jobStart.value) < 60)
      && (docker == DockerEnded ==> d == CollectResults)
      && ((docker in {DockerUnknown, DockerGhost}) && !(localState == Running || isDockerStep) ==> d == CollectResults)
  {
  }

  /** On wake-up, the last step when it is a 'running' step, else the default run step (`None`). */
  function WakeUpRunStep(steps: seq<Step>): (s: Option<nat>)
    ensures s.Some? <==> steps != [] && steps[|steps| - 1].runs
    ensures s.Some? ==> s.value == steps[|steps| - 1].id
  {
    if steps != [] && steps[|steps| - 1].runs then Some(steps[|steps| - 1].id) else None
  }
}
