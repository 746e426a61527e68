/**
 The service supervisor (internal/svcd/supervisor.go) together with the SIGCHLD
 reaper of cmd/karim-svcd/main.go, for one service with a fixed specification.

 Every critical section under the service's mutex is one atomic step, and a run
 is any interleaving of operator calls, process exits, one monitor goroutine
 per launch, and the reaper. Launches number the processes, so process ids are
 never reused.
 */
module Supervisor {
  import opened Common

  datatype ProcessState = Stopped | Starting | Running | Stopping | Terminated

  /** The restart policies; any other text in the configuration behaves like Never. */
  datatype Policy = Always | OnFailure | Never

  datatype Spec = Spec(policy: Policy, maxRestarts: int)

  /** How a process really ended. */
  datatype ExitStatus = Exited(code: nat) | Signaled(sig: nat)

  predicate Success(st: ExitStatus) {
    st == Exited(0)
  }

  /** What Cmd.Wait returns to a monitor. */
  datatype WaitResult = CleanExit | ExitError(code: int) | NoChild | OtherError

  /** Wait when it is the one to reap the process; a signal death reports code -1. */
  function ResultOf(st: ExitStatus): WaitResult {
    match st
    case Exited(c) => if c == 0 then CleanExit else ExitError(c)
    case Signaled(_) => ExitError(-1)
  }

  /** The code the reaper records. */
  function ReaperCode(st: ExitStatus): int {
    match st
    case Exited(c) => c
    case Signaled(s) => 128 + s
  }

  // ------------------------------------------- the mutex-guarded fields

  datatype Svc = Svc(
    state: ProcessState,
    cmd: Option<nat>,
    restartCount: nat,
    recorded: bool,
    recordedCode: int)

  const FRESH := Svc(Stopped, None, 0, false, 0)

  /** Start, when it is not refused: `pid` is the new process, or None when launching failed. */
  function Launch(s: Svc, pid: Option<nat>): Svc {
    match pid
    case Some(p) => s.(state := Running, cmd := Some(p), recorded := false, recordedCode := 0)
    case None => s.(state := Stopped, recorded := false, recordedCode := 0)
  }

  function RequestStop(s: Svc): Svc {
    if s.state != Running || s.cmd.None? then s else s.(state := Stopping)
  }

  function Record(s: Svc, code: int): Svc {
    s.(recorded := true, recordedCode := code)
  }

  /** The exit code the monitor settles on: a recorded one wins over its own Wait. */
  function SettledCode(s: Svc, r: WaitResult): int {
    if s.recorded then s.recordedCode
    else
      match r
      case ExitError(c) => c
      case OtherError => 1
      case NoChild => 0
      case CleanExit => 0
  }

  predicate ShouldRestart(policy: Policy, code: int) {
    policy == Always || (policy == OnFailure && code != 0)
  }

  /** The crash-loop limit refuses this attempt. */
  predicate Exceeded(spec: Spec, count: nat) {
    spec.maxRestarts > 0 && count > spec.maxRestarts
  }

  function Min(a: int, b: int): int {
    if a < b then a else b
  }

  /** Seconds slept before the k-th automatic restart. */
  function Backoff(k: nat): nat
    requires k >= 1
  {
    Min(Pow2(Min(k - 1, 5)), 30)
  }

  /** The restart policy after a settled exit: the new fields, and the attempt to sleep for, if any. */
  function Judge(spec: Spec, s: Svc, code: int): (Svc, Option<nat>) {
    if !ShouldRestart(spec.policy, code) then (s, None)
    else
      var k := s.restartCount + 1;
      (s.(restartCount := k), if Exceeded(spec, k) then None else Some(k))
  }

  /** The service object as the program updates it, one method per critical section. */
  class ManagedService {
    var state: ProcessState
    var cmd: Option<nat>
    var restartCount: nat
    var exitCodeRecorded: bool
    var recordedExitCode: int

    ghost function View(): Svc
      reads this
    {
      Svc(state, cmd, restartCount, exitCodeRecorded, recordedExitCode)
    }

    constructor ()
      ensures View() == FRESH
    {
      state, cmd, restartCount, exitCodeRecorded, recordedExitCode := Stopped, None, 0, false, 0;
    }

    method RecordExitStatus(exitCode: int)
      modifies this
      ensures View() == Record(old(View()), exitCode)
    {
      exitCodeRecorded := true;
      recordedExitCode := exitCode;
    }

    /** Start: `forked` is the process the launch produced, if it got that far. */
    method Start(forked: Option<nat>) returns (started: bool)
      modifies this
      ensures View() == if old(state) == Running then old(View()) else Launch(old(View()), forked)
      ensures started <==> old(state) != Running && forked.Some?
    {
      if state == Running {
        return false;
      }
      exitCodeRecorded := false;
      recordedExitCode := 0;
      state := Starting;
      if forked.None? {
        state := Stopped;
        return false;
      }
      cmd := forked;
      state := Running;
      return true;
    }

    method Stop()
      modifies this
      ensures View() == RequestStop(old(View()))
    {
      if state != Running || cmd.None? {
        return;
      }
      state := Stopping;
    }

    /** monitor, between Wait and the restart policy. */
    method Finish(r: WaitResult) returns (exitCode: int)
      modifies this
      ensures View() == old(View()).(state := Terminated)
      ensures exitCode == SettledCode(old(View()), r)
      ensures exitCode ==
        if old(exitCodeRecorded) then old(recordedExitCode)
        else if r.ExitError? then r.code
        else if r.OtherError? then 1
        else 0
    {
      state := Terminated;
      exitCode := 0;
      if exitCodeRecorded {
        exitCode := recordedExitCode;
      } else {
        match r {
          case ExitError(c) => exitCode := c;
          case NoChild => exitCode := 0;
          case OtherError => exitCode := 1;
          case CleanExit =>
        }
      }
    }

    /** monitor, the restart policy: the attempt number to sleep for, or None. */
    method Decide(spec: Spec, exitCode: int) returns (attempt: Option<nat>, seconds: nat)
      modifies this
      ensures (View(), attempt) == Judge(spec, old(View()), exitCode)
      ensures attempt.Some? ==> attempt.value >= 1 && seconds == Backoff(attempt.value)
      ensures attempt.Some? <==>
        && (spec.policy == Always || (spec.policy == OnFailure && exitCode != 0))
        && (spec.maxRestarts <= 0 || old(restartCount) < spec.maxRestarts)
      ensures attempt.Some? ==> attempt.value == old(restartCount) + 1
    {
      seconds := 0;
      var shouldRestart := false;
      match spec.policy {
        case Always => shouldRestart := true;
        case OnFailure => if exitCode != 0 { shouldRestart := true; }
        case Never =>
      }
      if !shouldRestart {
        return None, 0;
      }
      restartCount := restartCount + 1;
      var count := restartCount;
      if spec.maxRestarts > 0 && count > spec.maxRestarts {
        return None, 0;
      }
      var backoff := Pow2(Min(count - 1, 5));
      if backoff > 30 {
        backoff := 30;
      }
      return Some(count), backoff;
    }
  }

  // ------------------------------------------------------- the whole system

  datatype Proc = Alive | Zombie(status: ExitStatus) | Reaped(status: ExitStatus)

  /** Where the monitor of one launch stands. */
  datatype Phase =
    | Spawned
    | Waiting(cmd: nat)
    | Returned(cmd: nat, result: WaitResult)
    | Settled(code: int)
    | Sleeping(attempt: nat)
    | Done

  /** The monitor has not yet marked the service terminated. */
  predicate Active(ph: Phase) {
    ph.Spawned? || ph.Waiting? || ph.Returned?
  }

  /**
   `procs[i]` and `monitors[i]` belong to the i-th launch. `waited` holds the
   commands on which some Wait has returned; `reaper` the process the reaper
   has collected but not yet attributed; `slept` the seconds of backoff asked
   for so far.
   */
  datatype World = World(
    svc: Svc,
    procs: seq<Proc>,
    monitors: seq<Phase>,
    waited: set<nat>,
    reaper: Option<nat>,
    operatorStarts: nat,
    automaticStarts: nat,
    slept: nat)

  const INITIAL := World(FRESH, [], [], {}, None, 0, 0, 0)

  datatype Step =
    | OperatorStart(forks: bool)
    | OperatorStop
    | Exit(pid: nat, status: ExitStatus)
    | MonitorEnter(m: nat)
    | MonitorWait(m: nat, result: WaitResult)
    | MonitorFinish(m: nat)
    | MonitorDecide(m: nat)
    | MonitorWake(m: nat, forks: bool)
    | Reap(pid: nat)
    | Attribute(hit: bool)

  predicate IsStart(s: Step) {
    s.OperatorStart? || s.MonitorWake?
  }

  ghost predicate Enabled(w: World, s: Step) {
    match s
    case OperatorStart(_) => true
    case OperatorStop => true
    case Exit(pid, _) => pid < |w.procs| && w.procs[pid] == Alive
    // The monitor reads ms.Cmd only now, which need not be its own launch's command.
    case MonitorEnter(m) => m < |w.monitors| && w.monitors[m] == Spawned && w.svc.cmd.Some?
    case MonitorWait(m, r) =>
      && m < |w.monitors| && w.monitors[m].Waiting?
      && var c := w.monitors[m].cmd;
        && c < |w.procs|
        && (match w.procs[c]
            case Alive => false
            case Zombie(st) => r == ResultOf(st)
            case Reaped(_) => r == NoChild || (r == OtherError && c in w.waited))
    case MonitorFinish(m) => m < |w.monitors| && w.monitors[m].Returned?
    case MonitorDecide(m) => m < |w.monitors| && w.monitors[m].Settled?
    case MonitorWake(m, _) => m < |w.monitors| && w.monitors[m].Sleeping?
    case Reap(pid) => w.reaper.None? && pid < |w.procs| && w.procs[pid].Zombie?
    // A miss is always possible: the lookup reads ms.Cmd without its mutex.
    case Attribute(hit) =>
      && w.reaper.Some? && w.reaper.value < |w.procs| && w.procs[w.reaper.value].Reaped?
      && (hit ==> w.svc.cmd == w.reaper)
  }

  function DoStart(w: World, forks: bool): World {
    if w.svc.state == Running then w
    else if forks then
      w.(svc := Launch(w.svc, Some(|w.procs|)), procs := w.procs + [Alive], monitors := w.monitors + [Spawned])
    else w.(svc := Launch(w.svc, None))
  }

  function DoDecide(spec: Spec, w: World, m: nat): World
    requires m < |w.monitors| && w.monitors[m].Settled?
  {
    var (svc, attempt) := Judge(spec, w.svc, w.monitors[m].code);
    match attempt
    case None => w.(svc := svc, monitors := w.monitors[m := Done])
    case Some(k) => w.(svc := svc, monitors := w.monitors[m := Sleeping(k)], slept := w.slept + Backoff(k))
  }

  ghost function Apply(spec: Spec, w: World, s: Step): World
    requires Enabled(w, s)
  {
    match s
    case OperatorStart(forks) => DoStart(w.(operatorStarts := w.operatorStarts + 1), forks)
    case OperatorStop => w.(svc := RequestStop(w.svc))
    case Exit(pid, st) => w.(procs := w.procs[pid := Zombie(st)])
    case MonitorEnter(m) => w.(monitors := w.monitors[m := Waiting(w.svc.cmd.value)])
    case MonitorWait(m, r) =>
      var c := w.monitors[m].cmd;
      w.(procs := w.procs[c := Reaped(w.procs[c].status)],
         waited := w.waited + {c},
         monitors := w.monitors[m := Returned(c, r)])
    case MonitorFinish(m) =>
      w.(svc := w.svc.(state := Terminated),
         monitors := w.monitors[m := Settled(SettledCode(w.svc, w.monitors[m].result))])
    case MonitorDecide(m) => DoDecide(spec, w, m)
    case MonitorWake(m, forks) =>
      DoStart(w.(automaticStarts := w.automaticStarts + 1, monitors := w.monitors[m := Done]), forks)
    case Reap(pid) => w.(procs := w.procs[pid := Reaped(w.procs[pid].status)], reaper := Some(pid))
    case Attribute(hit) =>
      var svc := if hit then Record(w.svc, ReaperCode(w.procs[w.reaper.value].status)) else w.svc;
      w.(svc := svc, reaper := None)
  }

  /** The world after a run of steps; None when some step was not enabled. */
  ghost function After(spec: Spec, steps: seq<Step>): Option<World> {
    if steps == [] then Some(INITIAL)
    else
      var n := |steps| - 1;
      match After(spec, steps[..n])
      case None => None
      case Some(w) => if Enabled(w, steps[n]) then Some(Apply(spec, w, steps[n])) else None
  }

  ghost predicate StoppingAt(spec: Spec, steps: seq<Step>) {
    After(spec, steps).Some? && After(spec, steps).value.svc.state == Stopping
  }

  /** The run condition: no Start, operator's or monitor's, is entered while the service is stopping. */
  ghost predicate NoStartWhileStopping(spec: Spec, steps: seq<Step>) {
    forall i :: 0 <= i < |steps| && IsStart(steps[i]) ==> !StoppingAt(spec, steps[..i])
  }

  lemma RunPrefix(spec: Spec, steps: seq<Step>)
    requires steps != [] && After(spec, steps).Some? && NoStartWhileStopping(spec, steps)
    ensures var n := |steps| - 1;
      && After(spec, steps[..n]).Some? && NoStartWhileStopping(spec, steps[..n])
      && Enabled(After(spec, steps[..n]).value, steps[n])
      && (IsStart(steps[n]) ==> After(spec, steps[..n]).value.svc.state != Stopping)
  {
    var n := |steps| - 1;
    assert steps == steps[..n] + [steps[n]];
    ConditionSnoc(spec, steps[..n], steps[n]);
  }

  // ---------------------------------------------- one process at a time

  predicate Busy(s: Svc) {
    s.state == Running || s.state == Stopping
  }

  /** Everything but the last launch is over, and the last one matches the service's state and command. */
  ghost predicate OneLaunch(w: World) {
    && |w.monitors| == |w.procs|
    && (|w.procs| == 0 ==> w.svc.cmd == None && !Busy(w.svc))
    && (forall i :: 0 <= i < |w.procs| - 1 ==> w.procs[i].Reaped? && !Active(w.monitors[i]))
    && (|w.procs| > 0 ==>
          var last := |w.procs| - 1;
          && w.svc.cmd == Some(last)
          && (Busy(w.svc) <==> Active(w.monitors[last]))
          && (!Active(w.monitors[last]) ==> w.procs[last].Reaped?)
          && (match w.monitors[last]
              case Spawned => last !in w.waited
              case Waiting(c) => c == last && last !in w.waited
              case Returned(c, r) => c == last && w.procs[last].Reaped?
              case _ => true))
    && (forall c :: c in w.waited ==> c < |w.procs|)
    && (w.reaper.Some? ==> w.reaper.value < |w.procs| && w.procs[w.reaper.value].Reaped?)
  }

  lemma StartKeepsOneLaunch(w: World, forks: bool)
    requires OneLaunch(w) && w.svc.state != Stopping
    ensures OneLaunch(DoStart(w, forks))
  {
  }

  /** Moving a monitor that is already past its critical section changes nothing that matters. */
  lemma MovePassive(w: World, m: nat, ph: Phase)
    requires OneLaunch(w) && m < |w.monitors| && !Active(w.monitors[m]) && !Active(ph)
    ensures OneLaunch(w.(monitors := w.monitors[m := ph]))
  {
  }

  lemma ActiveIsLast(w: World, m: nat)
    requires OneLaunch(w) && m < |w.monitors| && Active(w.monitors[m])
    ensures m == |w.procs| - 1
  {
  }

  lemma MonitorKeepsOneLaunch(spec: Spec, w: World, s: Step)
    requires OneLaunch(w) && Enabled(w, s)
    requires s.MonitorEnter? || s.MonitorWait? || s.MonitorFinish?
    ensures OneLaunch(Apply(spec, w, s))
  {
  }

  lemma KernelKeepsOneLaunch(spec: Spec, w: World, s: Step)
    requires OneLaunch(w) && Enabled(w, s)
    requires s.Exit? || s.Reap? || s.Attribute?
    ensures OneLaunch(Apply(spec, w, s))
  {
  }

  lemma DecideKeepsOneLaunch(spec: Spec, w: World, m: nat)
    requires OneLaunch(w) && Enabled(w, MonitorDecide(m))
    ensures OneLaunch(DoDecide(spec, w, m))
  {
  }

  lemma OneLaunchStep(spec: Spec, w: World, s: Step)
    requires OneLaunch(w) && Enabled(w, s)
    requires IsStart(s) ==> w.svc.state != Stopping
    ensures OneLaunch(Apply(spec, w, s))
  {
    match s {
      case OperatorStart(forks) =>
        StartKeepsOneLaunch(w.(operatorStarts := w.operatorStarts + 1), forks);
      case MonitorWake(m, forks) =>
        MovePassive(w, m, Done);
        StartKeepsOneLaunch(w.(automaticStarts := w.automaticStarts + 1, monitors := w.monitors[m := Done]), forks);
      case OperatorStop =>
      case MonitorDecide(m) =>
        DecideKeepsOneLaunch(spec, w, m);
      case Exit(_, _) =>
        KernelKeepsOneLaunch(spec, w, s);
      case Reap(_) =>
        KernelKeepsOneLaunch(spec, w, s);
      case Attribute(_) =>
        KernelKeepsOneLaunch(spec, w, s);
      case MonitorEnter(_) =>
        MonitorKeepsOneLaunch(spec, w, s);
      case MonitorWait(_, _) =>
        MonitorKeepsOneLaunch(spec, w, s);
      case MonitorFinish(_) =>
        MonitorKeepsOneLaunch(spec, w, s);
    }
  }

  lemma {:induction false} OneLaunchAlways(spec: Spec, steps: seq<Step>)
    requires After(spec, steps).Some? && NoStartWhileStopping(spec, steps)
    ensures OneLaunch(After(spec, steps).value)
    decreases |steps|
  {
    if steps != [] {
      var n := |steps| - 1;
      RunPrefix(spec, steps);
      OneLaunchAlways(spec, steps[..n]);
      OneLaunchStep(spec, After(spec, steps[..n]).value, steps[n]);
    }
  }

  /**
   At most one process is not yet reaped; the service is running or stopping
   exactly when one monitor has not finished, and that monitor's launch is ms.Cmd.
   */
  ghost predicate SoleProcess(w: World) {
    && |w.monitors| == |w.procs|
    && (forall i, j :: 0 <= i < |w.procs| && 0 <= j < |w.procs| && !w.procs[i].Reaped? && !w.procs[j].Reaped? ==> i == j)
    && (forall i, j :: 0 <= i < |w.procs| && 0 <= j < |w.procs| && Active(w.monitors[i]) && Active(w.monitors[j]) ==> i == j)
    && (Busy(w.svc) <==> exists m :: 0 <= m < |w.monitors| && Active(w.monitors[m]))
    && (forall m :: 0 <= m < |w.monitors| && Active(w.monitors[m]) ==> w.svc.cmd == Some(m))
    && (forall m :: 0 <= m < |w.monitors| && w.monitors[m].Waiting? ==> w.monitors[m].cmd == m)
  }

  lemma OneLaunchIsSole(w: World)
    requires OneLaunch(w)
    ensures SoleProcess(w)
  {
  }

  /** In every interleaving in which Start is never entered while stopping, one process at a time. */
  lemma AtMostOneProcess(spec: Spec, steps: seq<Step>)
    requires After(spec, steps).Some? && NoStartWhileStopping(spec, steps)
    ensures SoleProcess(After(spec, steps).value)
  {
    OneLaunchAlways(spec, steps);
    OneLaunchIsSole(After(spec, steps).value);
  }

  /**
   The condition is exact: entered from a state the invariant allows, a Start
   that forks leaves two unreaped processes if and only if the service was
   stopping and its process not yet reaped.
   */
  lemma SecondProcessExact(w: World)
    requires OneLaunch(w)
    ensures var v := DoStart(w, true);
      (exists i, j :: 0 <= i < j < |v.procs| && !v.procs[i].Reaped? && !v.procs[j].Reaped?)
      <==> w.svc.state == Stopping && !w.procs[|w.procs| - 1].Reaped?
  {
    var v := DoStart(w, true);
    if w.svc.state == Stopping && !w.procs[|w.procs| - 1].Reaped? {
      assert !v.procs[|w.procs| - 1].Reaped? && !v.procs[|w.procs|].Reaped?;
    }
  }

  /**
   So is the whole guarantee: entered from a state the invariant allows, a Start
   keeps it if and only if the service was not stopping, whether or not the
   launch succeeds.
   */
  lemma StartConditionExact(w: World, forks: bool)
    requires OneLaunch(w)
    ensures SoleProcess(DoStart(w, forks)) <==> w.svc.state != Stopping
  {
    var v := DoStart(w, forks);
    if w.svc.state != Stopping {
      StartKeepsOneLaunch(w, forks);
      OneLaunchIsSole(v);
    } else {
      assert Active(v.monitors[|w.procs| - 1]);
    }
  }

  /** One process at a time at the end of the run and at every earlier point. */
  ghost predicate SoleThroughout(spec: Spec, steps: seq<Step>) {
    && After(spec, steps).Some? && SoleProcess(After(spec, steps).value)
    && (steps != [] ==> SoleThroughout(spec, steps[..|steps| - 1]))
  }

  lemma StartStepExact(spec: Spec, w: World, s: Step)
    requires OneLaunch(w) && Enabled(w, s) && IsStart(s) && w.svc.state == Stopping
    ensures !SoleProcess(Apply(spec, w, s))
  {
    match s {
      case OperatorStart(forks) =>
        StartConditionExact(w.(operatorStarts := w.operatorStarts + 1), forks);
      case MonitorWake(m, forks) =>
        MovePassive(w, m, Done);
        StartConditionExact(w.(automaticStarts := w.automaticStarts + 1, monitors := w.monitors[m := Done]), forks);
    }
  }

  lemma ConditionSnoc(spec: Spec, init: seq<Step>, s: Step)
    requires After(spec, init).Some?
    ensures NoStartWhileStopping(spec, init + [s]) <==>
      NoStartWhileStopping(spec, init) && (IsStart(s) ==> !StoppingAt(spec, init))
  {
    var n, steps := |init|, init + [s];
    assert steps[..n] == init && steps[n] == s;
    forall i | 0 <= i < n
      ensures init[i] == steps[i] && init[..i] == steps[..i]
    {
    }
    if NoStartWhileStopping(spec, init) && (IsStart(s) ==> !StoppingAt(spec, init)) {
      forall i | 0 <= i < |steps| && IsStart(steps[i])
        ensures !StoppingAt(spec, steps[..i])
      {
        assert i < n ==> init[..i] == steps[..i];
      }
    }
    if NoStartWhileStopping(spec, steps) {
      forall i | 0 <= i < n && IsStart(init[i])
        ensures !StoppingAt(spec, init[..i])
      {
        assert init[..i] == steps[..i];
      }
    }
  }

  /** The run condition is exact: one process at every point of a run, if and only if the run meets it. */
  lemma {:induction false} RunConditionExact(spec: Spec, steps: seq<Step>)
    requires After(spec, steps).Some?
    ensures SoleThroughout(spec, steps) <==> NoStartWhileStopping(spec, steps)
    decreases |steps|
  {
    if steps == [] {
      OneLaunchIsSole(INITIAL);
    } else {
      var n := |steps| - 1;
      RunConditionExact(spec, steps[..n]);
      assert steps == steps[..n] + [steps[n]];
      ConditionSnoc(spec, steps[..n], steps[n]);
      if NoStartWhileStopping(spec, steps) {
        AtMostOneProcess(spec, steps);
      } else if NoStartWhileStopping(spec, steps[..n]) {
        OneLaunchAlways(spec, steps[..n]);
        StartStepExact(spec, After(spec, steps[..n]).value, steps[n]);
      }
    }
  }

  /** Without the run condition two processes can be alive at once. */
  lemma StartWhileStoppingDoubles(spec: Spec)
    ensures var steps := [OperatorStart(true), OperatorStop, OperatorStart(true)];
      && After(spec, steps).Some?
      && After(spec, steps).value.procs == [Alive, Alive]
      && !NoStartWhileStopping(spec, steps)
  {
    var steps := [OperatorStart(true), OperatorStop, OperatorStart(true)];
    assert steps[..0] == [] && steps[..1] == [OperatorStart(true)] && steps[..2] == [OperatorStart(true), OperatorStop];
    assert steps[..1][..0] == [] && steps[..2][..1] == steps[..1];
    var w1 := Apply(spec, INITIAL, steps[0]);
    assert After(spec, steps[..1]) == Some(w1);
    var w2 := Apply(spec, w1, steps[1]);
    assert After(spec, steps[..2]) == Some(w2);
    assert w2.svc.state == Stopping && IsStart(steps[2]);
  }

  // ---------------------------------------------- exit codes and restarts

  /** A monitor past its critical section that holds a failure, or will restart because of one. */
  ghost predicate Truthful(spec: Spec, w: World) {
    && |w.monitors| == |w.procs|
    && (Busy(w.svc) && w.svc.recorded && w.svc.cmd.Some? && w.svc.cmd.value < |w.procs| ==>
          var p := w.procs[w.svc.cmd.value];
          p.Reaped? && w.svc.recordedCode == ReaperCode(p.status))
    && (forall m :: 0 <= m < |w.monitors| && w.monitors[m].Returned? ==>
          w.procs[m].Reaped? && (w.monitors[m].result == NoChild || w.monitors[m].result == ResultOf(w.procs[m].status)))
    && (forall m :: 0 <= m < |w.monitors| && w.monitors[m].Settled? && w.monitors[m].code != 0 ==>
          w.procs[m].Reaped? && !Success(w.procs[m].status))
    && (forall m :: 0 <= m < |w.monitors| && w.monitors[m].Sleeping? && spec.policy == OnFailure ==>
          w.procs[m].Reaped? && !Success(w.procs[m].status))
  }

  lemma StartKeepsTruth(spec: Spec, w: World, forks: bool)
    requires OneLaunch(w) && Truthful(spec, w) && w.svc.state != Stopping
    ensures Truthful(spec, DoStart(w, forks))
  {
  }

  lemma MonitorKeepsTruth(spec: Spec, w: World, s: Step)
    requires OneLaunch(w) && Truthful(spec, w) && Enabled(w, s)
    requires s.MonitorEnter? || s.MonitorWait? || s.MonitorFinish?
    ensures Truthful(spec, Apply(spec, w, s))
  {
    ActiveIsLast(w, s.m);
  }

  lemma DecideKeepsTruth(spec: Spec, w: World, m: nat)
    requires OneLaunch(w) && Truthful(spec, w) && Enabled(w, MonitorDecide(m))
    ensures Truthful(spec, DoDecide(spec, w, m))
  {
  }

  lemma KernelKeepsTruth(spec: Spec, w: World, s: Step)
    requires OneLaunch(w) && Truthful(spec, w) && Enabled(w, s)
    requires s.Exit? || s.Reap? || s.Attribute?
    ensures Truthful(spec, Apply(spec, w, s))
  {
  }

  lemma TruthfulStep(spec: Spec, w: World, s: Step)
    requires OneLaunch(w) && Truthful(spec, w) && Enabled(w, s)
    requires IsStart(s) ==> w.svc.state != Stopping
    ensures Truthful(spec, Apply(spec, w, s))
  {
    match s {
      case OperatorStart(forks) =>
        StartKeepsTruth(spec, w.(operatorStarts := w.operatorStarts + 1), forks);
      case MonitorWake(m, forks) =>
        MovePassive(w, m, Done);
        StartKeepsTruth(spec, w.(automaticStarts := w.automaticStarts + 1, monitors := w.monitors[m := Done]), forks);
      case OperatorStop =>
      case MonitorDecide(m) =>
        DecideKeepsTruth(spec, w, m);
      case Exit(_, _) =>
        KernelKeepsTruth(spec, w, s);
      case Reap(_) =>
        KernelKeepsTruth(spec, w, s);
      case Attribute(_) =>
        KernelKeepsTruth(spec, w, s);
      case MonitorEnter(_) =>
        MonitorKeepsTruth(spec, w, s);
      case MonitorWait(_, _) =>
        MonitorKeepsTruth(spec, w, s);
      case MonitorFinish(_) =>
        MonitorKeepsTruth(spec, w, s);
    }
  }

  lemma {:induction false} TruthfulAlways(spec: Spec, steps: seq<Step>)
    requires After(spec, steps).Some? && NoStartWhileStopping(spec, steps)
    ensures Truthful(spec, After(spec, steps).value)
    decreases |steps|
  {
    if steps != [] {
      var n := |steps| - 1;
      RunPrefix(spec, steps);
      TruthfulAlways(spec, steps[..n]);
      OneLaunchAlways(spec, steps[..n]);
      TruthfulStep(spec, After(spec, steps[..n]).value, steps[n]);
    }
  }

  /**
   Whichever of reaper and monitor wins the wait, an on-failure service is
   never restarted automatically on account of a process that exited with 0.
   */
  lemma NoRestartAfterSuccess(spec: Spec, steps: seq<Step>, m: nat, forks: bool)
    requires spec.policy == OnFailure
    requires NoStartWhileStopping(spec, steps)
    requires After(spec, steps).Some? && Enabled(After(spec, steps).value, MonitorWake(m, forks))
    ensures var w := After(spec, steps).value;
      m < |w.procs| && w.procs[m].Reaped? && !Success(w.procs[m].status)
  {
    TruthfulAlways(spec, steps);
    OneLaunchAlways(spec, steps);
  }

  lemma SettledInWorld(spec: Spec, w: World, m: nat)
    requires OneLaunch(w) && Truthful(spec, w) && Enabled(w, MonitorFinish(m))
    ensures m < |w.procs| && w.procs[m].Reaped?
    ensures SettledCode(w.svc, w.monitors[m].result) == 0 <==>
      Success(w.procs[m].status) || (w.monitors[m].result == NoChild && !w.svc.recorded)
  {
  }

  /**
   The converse is exact: at the end of its critical section a monitor holds
   code 0 if and only if its process succeeded, or the reaper took the status
   away and had not recorded it yet. Only then is a failure treated as clean.
   */
  lemma SettledCodeExact(spec: Spec, steps: seq<Step>, m: nat)
    requires NoStartWhileStopping(spec, steps)
    requires After(spec, steps).Some? && Enabled(After(spec, steps).value, MonitorFinish(m))
    ensures var w := After(spec, steps).value;
      && m < |w.procs| && w.procs[m].Reaped?
      && (SettledCode(w.svc, w.monitors[m].result) == 0 <==>
            Success(w.procs[m].status) || (w.monitors[m].result == NoChild && !w.svc.recorded))
  {
    TruthfulAlways(spec, steps);
    OneLaunchAlways(spec, steps);
    SettledInWorld(spec, After(spec, steps).value, m);
  }

  const RACE := [OperatorStart(true), MonitorEnter(0), Exit(0, Exited(1)), Reap(0), MonitorWait(0, NoChild)]

  lemma RaceWorlds(spec: Spec) returns (w1: World, w2: World, w3: World, w4: World, w5: World)
    ensures Enabled(INITIAL, RACE[0]) && w1 == Apply(spec, INITIAL, RACE[0])
    ensures Enabled(w1, RACE[1]) && w2 == Apply(spec, w1, RACE[1])
    ensures Enabled(w2, RACE[2]) && w3 == Apply(spec, w2, RACE[2])
    ensures Enabled(w3, RACE[3]) && w4 == Apply(spec, w3, RACE[3])
    ensures Enabled(w4, RACE[4]) && w5 == Apply(spec, w4, RACE[4])
    ensures w5.monitors == [Returned(0, NoChild)] && w5.procs == [Reaped(Exited(1))] && !w5.svc.recorded
  {
    var svc := Launch(FRESH, Some(0));
    w1 := World(svc, [Alive], [Spawned], {}, None, 1, 0, 0);
    w2 := w1.(monitors := [Waiting(0)]);
    w3 := w2.(procs := [Zombie(Exited(1))]);
    w4 := w3.(procs := [Reaped(Exited(1))], reaper := Some(0));
    w5 := w4.(monitors := [Returned(0, NoChild)], waited := {0});
  }

  /** That race is real: the process fails with status 1 and its monitor settles on 0. */
  lemma LostFailure(spec: Spec)
    ensures After(spec, RACE).Some? && NoStartWhileStopping(spec, RACE)
    ensures var w := After(spec, RACE).value;
      && w.procs == [Reaped(Exited(1))]
      && Enabled(w, MonitorFinish(0)) && Apply(spec, w, MonitorFinish(0)).monitors == [Settled(0)]
  {
    var w1, w2, w3, w4, w5 := RaceWorlds(spec);
    assert RACE[..0] == [];
    AfterSnoc(spec, [], RACE[0], RACE[..1]);
    AfterSnoc(spec, RACE[..1], RACE[1], RACE[..2]);
    AfterSnoc(spec, RACE[..2], RACE[2], RACE[..3]);
    AfterSnoc(spec, RACE[..3], RACE[3], RACE[..4]);
    AfterSnoc(spec, RACE[..4], RACE[4], RACE);
    assert forall i :: 0 <= i < |RACE| && IsStart(RACE[i]) ==> i == 0;
  }

  lemma AfterSnoc(spec: Spec, steps: seq<Step>, s: Step, all: seq<Step>)
    requires all == steps + [s] && After(spec, steps).Some? && Enabled(After(spec, steps).value, s)
    ensures After(spec, all) == Some(Apply(spec, After(spec, steps).value, s))
  {
  }

  // ------------------------------------------------------- restart budget

  /** Attempts the crash-loop limit has let through. */
  function Granted(spec: Spec, count: nat): nat {
    if spec.maxRestarts > 0 then Min(count, spec.maxRestarts) else count
  }

  function BackoffSum(n: nat): nat {
    if n == 0 then 0 else BackoffSum(n - 1) + Backoff(n)
  }

  function Sleepers(ms: seq<Phase>): nat {
    if ms == [] then 0 else Sleepers(ms[..|ms| - 1]) + (if ms[|ms| - 1].Sleeping? then 1 else 0)
  }

  lemma {:induction false} SleepersUpdate(ms: seq<Phase>, m: nat, ph: Phase)
    requires m < |ms|
    ensures Sleepers(ms[m := ph]) + (if ms[m].Sleeping? then 1 else 0) == Sleepers(ms) + (if ph.Sleeping? then 1 else 0)
    decreases |ms|
  {
    var n := |ms| - 1;
    if m == n {
      assert ms[m := ph][..n] == ms[..n];
    } else {
      assert ms[m := ph][..n] == ms[..n][m := ph];
      SleepersUpdate(ms[..n], m, ph);
    }
  }

  /** Every granted attempt is either still asleep or has called Start; nothing else calls it. */
  ghost predicate Budget(spec: Spec, w: World) {
    && w.automaticStarts + Sleepers(w.monitors) == Granted(spec, w.svc.restartCount)
    && w.slept == BackoffSum(Granted(spec, w.svc.restartCount))
    && |w.procs| <= w.operatorStarts + w.automaticStarts
    && (forall m :: 0 <= m < |w.monitors| && w.monitors[m].Sleeping? ==>
          1 <= w.monitors[m].attempt <= Granted(spec, w.svc.restartCount))
  }

  lemma StartBudget(w: World, forks: bool)
    ensures DoStart(w, forks).svc.restartCount == w.svc.restartCount
    ensures Sleepers(DoStart(w, forks).monitors) == Sleepers(w.monitors)
    ensures |DoStart(w, forks).procs| <= |w.procs| + 1
  {
  }

  lemma OperatorBudget(spec: Spec, w: World, forks: bool)
    requires Budget(spec, w)
    ensures Budget(spec, Apply(spec, w, OperatorStart(forks)))
  {
    StartBudget(w.(operatorStarts := w.operatorStarts + 1), forks);
  }

  lemma DecideBudget(spec: Spec, w: World, m: nat)
    requires Budget(spec, w) && Enabled(w, MonitorDecide(m))
    ensures Budget(spec, DoDecide(spec, w, m))
  {
    SleepersUpdate(w.monitors, m, DoDecide(spec, w, m).monitors[m]);
  }

  lemma WakeBudget(spec: Spec, w: World, m: nat, forks: bool)
    requires Budget(spec, w) && Enabled(w, MonitorWake(m, forks))
    ensures Budget(spec, Apply(spec, w, MonitorWake(m, forks)))
  {
    SleepersUpdate(w.monitors, m, Done);
    StartBudget(w.(automaticStarts := w.automaticStarts + 1, monitors := w.monitors[m := Done]), forks);
  }

  lemma MonitorBudget(spec: Spec, w: World, s: Step)
    requires Budget(spec, w) && Enabled(w, s)
    requires s.MonitorEnter? || s.MonitorWait? || s.MonitorFinish?
    ensures Budget(spec, Apply(spec, w, s))
  {
    SleepersUpdate(w.monitors, s.m, Apply(spec, w, s).monitors[s.m]);
  }

  lemma BudgetStep(spec: Spec, w: World, s: Step)
    requires Budget(spec, w) && Enabled(w, s)
    ensures Budget(spec, Apply(spec, w, s))
  {
    match s {
      case OperatorStart(forks) =>
        OperatorBudget(spec, w, forks);
      case MonitorWake(m, forks) =>
        WakeBudget(spec, w, m, forks);
      case MonitorDecide(m) =>
        DecideBudget(spec, w, m);
      case MonitorEnter(_) =>
        MonitorBudget(spec, w, s);
      case MonitorWait(_, _) =>
        MonitorBudget(spec, w, s);
      case MonitorFinish(_) =>
        MonitorBudget(spec, w, s);
      case OperatorStop =>
      case Exit(_, _) =>
      case Reap(_) =>
      case Attribute(_) =>
    }
  }

  lemma {:induction false} BudgetAlways(spec: Spec, steps: seq<Step>)
    requires After(spec, steps).Some?
    ensures Budget(spec, After(spec, steps).value)
    decreases |steps|
  {
    if steps != [] {
      var n := |steps| - 1;
      BudgetAlways(spec, steps[..n]);
      BudgetStep(spec, After(spec, steps[..n]).value, steps[n]);
    }
  }

  // ------------------------------------------------- restarts that must happen

  /** How many exits have been decided in the run. */
  function Decided(steps: seq<Step>): nat {
    if steps == [] then 0
    else Decided(steps[..|steps| - 1]) + (if steps[|steps| - 1].MonitorDecide? then 1 else 0)
  }

  /** The last step of the run decides an exit whose settled code is not 0. */
  ghost predicate DecidesFailure(spec: Spec, steps: seq<Step>) {
    steps != [] && steps[|steps| - 1].MonitorDecide? &&
    match After(spec, steps[..|steps| - 1])
    case None => false
    case Some(w) =>
      var m := steps[|steps| - 1].m;
      m < |w.monitors| && w.monitors[m].Settled? && w.monitors[m].code != 0
  }

  /** How many exits with a code other than 0 have been decided in the run. */
  ghost function DecidedFailures(spec: Spec, steps: seq<Step>): nat {
    if steps == [] then 0
    else DecidedFailures(spec, steps[..|steps| - 1]) + (if DecidesFailure(spec, steps) then 1 else 0)
  }

  /** The exits that called for a restart, by policy. */
  ghost function Called(spec: Spec, steps: seq<Step>): nat {
    match spec.policy
    case Always => Decided(steps)
    case OnFailure => DecidedFailures(spec, steps)
    case Never => 0
  }

  lemma CountStep(spec: Spec, w: World, s: Step)
    requires Enabled(w, s)
    ensures var calls := s.MonitorDecide?
        && (spec.policy == Always || (spec.policy == OnFailure && w.monitors[s.m].code != 0));
      Apply(spec, w, s).svc.restartCount == w.svc.restartCount + (if calls then 1 else 0)
  {
  }

  /**
   Over every run the restart count is the number of exits decided with policy
   always, of failures decided with on-failure, and 0 with any other policy, which
   then never starts anything automatically.
   */
  lemma {:induction false} RestartCountExact(spec: Spec, steps: seq<Step>)
    requires After(spec, steps).Some?
    ensures After(spec, steps).value.svc.restartCount == Called(spec, steps)
    ensures spec.policy == Never ==> After(spec, steps).value.automaticStarts == 0
    decreases |steps|
  {
    if steps != [] {
      var n := |steps| - 1;
      RestartCountExact(spec, steps[..n]);
      CountStep(spec, After(spec, steps[..n]).value, steps[n]);
    }
    BudgetAlways(spec, steps);
  }

  /**
   After every run, a monitor that decides goes to sleep for a restart exactly when
   the policy calls for one and its number is within a positive limit or there is no
   limit; otherwise it is done.
   */
  lemma DecisionExact(spec: Spec, steps: seq<Step>, m: nat)
    requires After(spec, steps).Some? && Enabled(After(spec, steps).value, MonitorDecide(m))
    ensures var w := After(spec, steps).value;
      var k := Called(spec, steps) + 1;
      var calls := spec.policy == Always || (spec.policy == OnFailure && w.monitors[m].code != 0);
      Apply(spec, w, MonitorDecide(m)).monitors[m]
        == if calls && (spec.maxRestarts <= 0 || k <= spec.maxRestarts) then Sleeping(k) else Done
  {
    RestartCountExact(spec, steps);
  }

  /** A sleeping monitor, when it wakes, launches a process unless the service is running or the launch fails. */
  lemma WakeLaunches(spec: Spec, w: World, m: nat, forks: bool)
    requires Enabled(w, MonitorWake(m, forks))
    ensures var v := Apply(spec, w, MonitorWake(m, forks));
      v.procs == if forks && w.svc.state != Running then w.procs + [Alive] else w.procs
  {
  }

  /** The code for how a process ended, as the reaper records it or as the monitor's own wait sees it. */
  function CodeFor(st: ExitStatus, recorded: bool): int {
    match st
    case Exited(c) => c
    case Signaled(s) => if recorded then 128 + s else -1
  }

  lemma SettledMeaningInWorld(spec: Spec, w: World, m: nat)
    requires OneLaunch(w) && Truthful(spec, w) && Enabled(w, MonitorFinish(m))
    ensures m < |w.procs| && w.procs[m].Reaped?
    ensures SettledCode(w.svc, w.monitors[m].result) ==
      if !w.svc.recorded && w.monitors[m].result == NoChild then 0 else CodeFor(w.procs[m].status, w.svc.recorded)
  {
    ActiveIsLast(w, m);
  }

  /**
   The code a monitor settles on, by how its process really ended: the exit status,
   or 128 plus the signal when the reaper recorded it and -1 when the monitor's own
   wait saw it; 0 when the reaper took the status and has not recorded it.
   */
  lemma SettledCodeMeaning(spec: Spec, steps: seq<Step>, m: nat)
    requires NoStartWhileStopping(spec, steps)
    requires After(spec, steps).Some? && Enabled(After(spec, steps).value, MonitorFinish(m))
    ensures var w := After(spec, steps).value;
      && m < |w.procs| && w.procs[m].Reaped?
      && Apply(spec, w, MonitorFinish(m)).monitors[m] == Settled(
           if !w.svc.recorded && w.monitors[m].result == NoChild then 0
           else CodeFor(w.procs[m].status, w.svc.recorded))
  {
    TruthfulAlways(spec, steps);
    OneLaunchAlways(spec, steps);
    SettledMeaningInWorld(spec, After(spec, steps).value, m);
  }

  /** 1, 3, 7, 15, 31 seconds in total, then 30 more per attempt. */
  function BackoffTotal(n: nat): int {
    if n <= 5 then Pow2(n) - 1 else 31 + 30 * (n - 5)
  }

  lemma {:induction false} BackoffClosedForm(n: nat)
    ensures BackoffSum(n) == BackoffTotal(n)
    ensures forall k :: 1 <= k <= n ==> Backoff(k) == if k <= 5 then Pow2(k - 1) else 30
  {
    assert Pow2(5) == 32 by { assert Pow2(3) == 8; }
    if n > 0 {
      BackoffClosedForm(n - 1);
    }
  }

  /**
   Over every run, whatever the interleaving: with MaxRestarts = m > 0 there are
   at most m automatic Start calls, at most operator starts plus m launches, and
   the backoff asked for is the closed form of the attempts granted.
   */
  lemma RestartsAreBounded(spec: Spec, steps: seq<Step>)
    requires After(spec, steps).Some?
    ensures var w := After(spec, steps).value;
      && w.slept == BackoffTotal(Granted(spec, w.svc.restartCount))
      && |w.procs| <= w.operatorStarts + w.automaticStarts
      && (spec.maxRestarts > 0 ==>
            w.automaticStarts <= spec.maxRestarts && w.slept <= BackoffTotal(spec.maxRestarts))
  {
    BudgetAlways(spec, steps);
    var w := After(spec, steps).value;
    BackoffClosedForm(Granted(spec, w.svc.restartCount));
    if spec.maxRestarts > 0 {
      BackoffClosedForm(spec.maxRestarts);
      BackoffMonotone(Granted(spec, w.svc.restartCount), spec.maxRestarts);
    }
  }

  lemma {:induction false} BackoffMonotone(a: nat, b: nat)
    requires a <= b
    ensures BackoffSum(a) <= BackoffSum(b)
  {
    if a < b {
      BackoffMonotone(a, b - 1);
    }
  }
}
