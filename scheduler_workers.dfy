/**
 * The separate-process timing study (time_scheduler_workers.py): a timer
 * object that launches a scheduler process, polls until a client can
 * connect to it, launches the worker processes, runs probe tasks, and on
 * every exit path tears the processes down, workers first, each with
 * SIGTERM, a bounded wait and a kill as fallback.
 *
 * Processes are handles whose state this model tracks; what the operating
 * system and the cluster library do (whether a launch, a connection, a
 * signal, a wait or a kill succeeds, and what the clock reads) is given by
 * an `Env`. The timer records the process-level calls it makes, in order,
 * in its `ops` trace.
 */
module SchedulerWorkers {
  import opened Wrappers
  import opened Json
  import opened Ordering

  const SchedulerAddress: string := "localhost:8786"
  /** Connection attempts the readiness loop makes at most. */
  const MaxAttempts: nat := 30
  /** Seconds slept before each connection attempt. */
  const ProbeSleep: real := 0.5
  /** Seconds cleanup waits for a process after SIGTERM. */
  const StopTimeout: real := 5.0

  // ---------------------------------------------------------------------
  // Worker command lines

  function DigitChar(d: nat): char
    requires d < 10
  {
    ('0' as int + d) as char
  }

  predicate IsDigit(c: char)
  {
    '0' <= c <= '9'
  }

  function DigitValue(c: char): nat
    requires IsDigit(c)
  {
    c as int - '0' as int
  }

  /** The number a string of decimal digits denotes, most significant digit first. */
  function DecimalValue(s: string): nat
    requires forall i :: 0 <= i < |s| ==> IsDigit(s[i])
  {
    if s == [] then 0 else 10 * DecimalValue(s[..|s| - 1]) + DigitValue(s[|s| - 1])
  }

  /**
   * Python's `str(n)` for a non-negative integer: decimal digits only,
   * never empty, and with no leading zero unless `n` is zero.
   */
  function NatToString(n: nat): (s: string)
    ensures |s| >= 1 && (n >= 10 ==> |s| >= 2)
    ensures forall i :: 0 <= i < |s| ==> IsDigit(s[i])
    ensures n >= 1 ==> s[0] != '0'
  {
    if n < 10 then [DigitChar(n)] else NatToString(n / 10) + [DigitChar(n % 10)]
  }

  /** Reading the digits of `str(n)` back gives `n`. */
  lemma {:induction false} NatToStringRoundTrip(n: nat)
    ensures DecimalValue(NatToString(n)) == n
  {
    var s := NatToString(n);
    if n >= 10 {
      assert s[..|s| - 1] == NatToString(n / 10);
      NatToStringRoundTrip(n / 10);
    }
  }

  /** Python's `str(i)` for any integer. */
  function IntToString(i: int): string
  {
    if i < 0 then "-" + NatToString(-i) else NatToString(i)
  }

  lemma {:induction false} NatToStringInjective(a: nat, b: nat)
    requires NatToString(a) == NatToString(b)
    ensures a == b
  {
    NatToStringRoundTrip(a);
    NatToStringRoundTrip(b);
  }

  function WorkerName(i: nat): string
  {
    "worker-" + NatToString(i)
  }

  /** What a process was launched to run. */
  datatype Command = SchedulerCommand | WorkerCommand(index: nat, threads: int)

  /** The command line `Popen` is given. */
  function Argv(c: Command): seq<string>
  {
    match c
    case SchedulerCommand => ["dask-scheduler", "--port", "8786"]
    case WorkerCommand(i, threads) =>
      ["dask-worker", SchedulerAddress, "--nthreads", IntToString(threads), "--name", WorkerName(i)]
  }

  /**
   * The command line carries the command back: the scheduler's port
   * argument reads as 8786, and a worker's `--nthreads` and `--name`
   * values read back as its thread count and, after `worker-`, its index.
   */
  lemma ArgvReadsBack(c: Command)
    ensures c.SchedulerCommand? ==>
      var argv := Argv(c);
      && |argv| == 3 && argv[1] == "--port"
      && (forall k :: 0 <= k < |argv[2]| ==> IsDigit(argv[2][k])) && DecimalValue(argv[2]) == 8786
    ensures c.WorkerCommand? ==>
      var argv := Argv(c);
      && |argv| == 6 && argv[2] == "--nthreads" && argv[4] == "--name"
      && |argv[5]| > 7 && argv[5][..7] == "worker-"
      && (forall k :: 7 <= k < |argv[5]| ==> IsDigit(argv[5][k]))
      && DecimalValue(argv[5][7..]) == c.index
      && (c.threads >= 0 ==>
            (forall k :: 0 <= k < |argv[3]| ==> IsDigit(argv[3][k])) && DecimalValue(argv[3]) == c.threads)
      && (c.threads < 0 ==>
            |argv[3]| > 1 && argv[3][0] == '-' &&
            (forall k :: 1 <= k < |argv[3]| ==> IsDigit(argv[3][k])) && DecimalValue(argv[3][1..]) == -c.threads)
  {
    match c
    case SchedulerCommand =>
      PortReadsBack();
    case WorkerCommand(i, threads) =>
      WorkerNameReadsBack(i);
      ThreadsReadBack(threads);
  }

  lemma PortReadsBack()
    ensures (forall k :: 0 <= k < |"8786"| ==> IsDigit("8786"[k])) && DecimalValue("8786") == 8786
  {
    assert "8786"[..3] == "878" && "878"[..2] == "87" && "87"[..1] == "8" && "8"[..0] == "";
  }

  lemma WorkerNameReadsBack(i: nat)
    ensures var name := WorkerName(i);
      && |name| > 7 && name[..7] == "worker-"
      && (forall k :: 7 <= k < |name| ==> IsDigit(name[k]))
      && DecimalValue(name[7..]) == i
  {
    assert WorkerName(i)[7..] == NatToString(i);
    NatToStringRoundTrip(i);
  }

  lemma ThreadsReadBack(threads: int)
    ensures var s := IntToString(threads);
      && (threads >= 0 ==> (forall k :: 0 <= k < |s| ==> IsDigit(s[k])) && DecimalValue(s) == threads)
      && (threads < 0 ==>
            |s| > 1 && s[0] == '-' && (forall k :: 1 <= k < |s| ==> IsDigit(s[k])) && DecimalValue(s[1..]) == -threads)
  {
    if threads >= 0 {
      NatToStringRoundTrip(threads);
    } else {
      assert IntToString(threads)[1..] == NatToString(-threads);
      NatToStringRoundTrip(-threads);
    }
  }

  /** Workers are launched under pairwise different names. */
  lemma WorkerNamesDistinct(i: nat, j: nat, threads: int)
    requires i != j
    ensures Argv(WorkerCommand(i, threads))[5] != Argv(WorkerCommand(j, threads))[5]
  {
    if WorkerName(i) == WorkerName(j) {
      assert WorkerName(i)[7..] == NatToString(i);
      assert WorkerName(j)[7..] == NatToString(j);
      NatToStringInjective(i, j);
    }
  }

  // ---------------------------------------------------------------------
  // Process handles

  datatype ProcState = Running | Terminating | Terminated | Killed

  predicate Stopped(s: ProcState)
  {
    s.Terminated? || s.Killed?
  }

  /**
   * How the process behind a handle answers cleanup: whether
   * `send_signal(SIGTERM)` raises, whether `wait(timeout=5)` times out, and
   * whether `kill()` raises.
   */
  datatype StopBehaviour = StopBehaviour(signalRaises: bool, waitTimesOut: bool, killRaises: bool)

  /** A `subprocess.Popen` handle. */
  class Process {
    const command: Command
    const behaviour: StopBehaviour
    var state: ProcState

    constructor (command: Command, behaviour: StopBehaviour)
      ensures this.command == command && this.behaviour == behaviour && state == Running
    {
      this.command := command;
      this.behaviour := behaviour;
      state := Running;
    }
  }

  datatype Signal = SigTerm | SigKill

  /** The process-level calls the timer makes. `kill()` is `SendSignal(p, SigKill)`. */
  datatype Op =
    | Spawn(proc: Process)
    | Sleep(seconds: real)
    | Connect(address: string)
    | SendSignal(proc: Process, sig: Signal)
    | Wait(proc: Process, timeout: real)

  // ---------------------------------------------------------------------
  // Teardown, as a function of the handles and their states

  datatype StopResult = StopResult(state: ProcState, ops: seq<Op>, raised: bool)

  /**
   * Stopping one handle: SIGTERM, then a bounded wait; if either raises,
   * `kill()`, whose own exception is not caught. A process that has
   * already exited ignores signals and is waited for at once
   * (`Popen.send_signal` and `Popen.wait` do nothing on a reaped process).
   */
  function StopStep(p: Process, st: ProcState): StopResult
  {
    var term := [SendSignal(p, SigTerm)];
    var wait := [Wait(p, StopTimeout)];
    var kill := [SendSignal(p, SigKill)];
    var b := p.behaviour;
    if Stopped(st) then StopResult(st, term + wait, false)
    else if b.signalRaises then
      StopResult(if b.killRaises then st else Killed, term + kill, b.killRaises)
    else if b.waitTimesOut then
      StopResult(if b.killRaises then Terminating else Killed, term + wait + kill, b.killRaises)
    else StopResult(Terminated, term + wait, false)
  }

  /**
   * The new states of the handles, the calls made and whether an exception
   * escaped. `processed` is how many handles were reached.
   */
  datatype TeardownResult = TeardownResult(states: seq<ProcState>, ops: seq<Op>, raised: bool, processed: nat)

  /** Stops `hs` in order until a `kill()` raises; unreached handles keep their state. */
  function Teardown(hs: seq<Process>, sts: seq<ProcState>): (r: TeardownResult)
    requires |hs| == |sts|
    ensures |r.states| == |hs| && r.processed <= |hs|
  {
    if hs == [] then TeardownResult([], [], false, 0)
    else
      var n := |hs| - 1;
      var r := Teardown(hs[..n], sts[..n]);
      if r.raised then TeardownResult(r.states + [sts[n]], r.ops, true, r.processed)
      else
        var s := StopStep(hs[n], sts[n]);
        TeardownResult(r.states + [s.state], r.ops + s.ops, s.raised, |hs|)
  }

  /** The handles that received signal `sig`, in the order the calls were made. */
  function Targets(ops: seq<Op>, sig: Signal): seq<Process>
  {
    if ops == [] then []
    else
      var n := |ops| - 1;
      Targets(ops[..n], sig) + (if ops[n].SendSignal? && ops[n].sig == sig then [ops[n].proc] else [])
  }

  lemma {:induction false} TargetsAppend(a: seq<Op>, b: seq<Op>, sig: Signal)
    ensures Targets(a + b, sig) == Targets(a, sig) + Targets(b, sig)
    decreases |b|
  {
    if b == [] {
      assert a + b == a;
    } else {
      var n := |b| - 1;
      assert (a + b)[..|a + b| - 1] == a + b[..n];
      TargetsAppend(a, b[..n], sig);
    }
  }

  lemma StopStepTerm(p: Process, st: ProcState)
    ensures Targets(StopStep(p, st).ops, SigTerm) == [p]
  {
    var ops := StopStep(p, st).ops;
    assert ops[0] == SendSignal(p, SigTerm);
    assert Targets(ops[..1], SigTerm) == [p] by {
      assert ops[..1][..0] == [];
    }
    if |ops| == 2 {
      assert ops[..1] == ops[..|ops| - 1];
    } else {
      assert ops[..2][..1] == ops[..1];
      assert ops[..2] == ops[..|ops| - 1];
    }
  }

  /** One more handle, when no exception escaped before it. */
  lemma TeardownStep(hs: seq<Process>, sts: seq<ProcState>, i: nat)
    requires |hs| == |sts| && i < |hs| && !Teardown(hs[..i], sts[..i]).raised
    ensures var p, s := Teardown(hs[..i], sts[..i]), StopStep(hs[i], sts[i]);
      Teardown(hs[..i + 1], sts[..i + 1]) == TeardownResult(p.states + [s.state], p.ops + s.ops, s.raised, i + 1)
  {
    assert hs[..i + 1][..i] == hs[..i] && sts[..i + 1][..i] == sts[..i];
  }

  /**
   * Teardown reaches every handle unless an exception escaped, and the
   * handles it did not reach keep their state.
   */
  lemma {:induction false} TeardownReach(hs: seq<Process>, sts: seq<ProcState>)
    requires |hs| == |sts|
    ensures var r := Teardown(hs, sts);
      && (!r.raised ==> r.processed == |hs|)
      && (r.raised ==> r.processed >= 1)
      && forall j :: r.processed <= j < |hs| ==> r.states[j] == sts[j]
  {
    if hs != [] {
      var n := |hs| - 1;
      TeardownReach(hs[..n], sts[..n]);
      var p := Teardown(hs[..n], sts[..n]);
      if p.raised {
        assert Teardown(hs, sts) == TeardownResult(p.states + [sts[n]], p.ops, true, p.processed);
        assert forall j :: p.processed <= j < n ==> p.states[j] == sts[..n][j] == sts[j];
      }
    }
  }

  /** SIGTERM goes to exactly the handles teardown reached, in their order. */
  lemma {:induction false} TeardownSigTermOrder(hs: seq<Process>, sts: seq<ProcState>)
    requires |hs| == |sts|
    ensures var r := Teardown(hs, sts); Targets(r.ops, SigTerm) == hs[..r.processed]
  {
    if hs != [] {
      var n := |hs| - 1;
      TeardownSigTermOrder(hs[..n], sts[..n]);
      TeardownReach(hs[..n], sts[..n]);
      var p := Teardown(hs[..n], sts[..n]);
      if p.raised {
        assert Teardown(hs, sts).ops == p.ops && Teardown(hs, sts).processed == p.processed;
        assert hs[..n][..p.processed] == hs[..p.processed];
      } else {
        var s := StopStep(hs[n], sts[n]);
        assert Teardown(hs, sts).ops == p.ops + s.ops && Teardown(hs, sts).processed == |hs|;
        TargetsAppend(p.ops, s.ops, SigTerm);
        StopStepTerm(hs[n], sts[n]);
        SnocPrefix(hs);
      }
    }
  }

  lemma SnocPrefix<T>(s: seq<T>)
    requires s != []
    ensures s[..|s| - 1] + [s[|s| - 1]] == s[..|s|]
  {
    assert s[..|s|] == s;
  }

  /** When no exception escapes, every handle ends Terminated or Killed. */
  lemma {:induction false} TeardownStopsAll(hs: seq<Process>, sts: seq<ProcState>)
    requires |hs| == |sts| && !Teardown(hs, sts).raised
    ensures forall j :: 0 <= j < |hs| ==> Stopped(Teardown(hs, sts).states[j])
  {
    if hs != [] {
      var n := |hs| - 1;
      TeardownStopsAll(hs[..n], sts[..n]);
    }
  }

  /**
   * An exception escapes teardown exactly when the `kill()` of some handle
   * raises, and then it is the last handle teardown reached.
   */
  lemma {:induction false} TeardownRaises(hs: seq<Process>, sts: seq<ProcState>)
    requires |hs| == |sts|
    ensures var r := Teardown(hs, sts);
      && (r.raised <==> exists j :: 0 <= j < |hs| && StopStep(hs[j], sts[j]).raised)
      && (r.raised ==> 1 <= r.processed && StopStep(hs[r.processed - 1], sts[r.processed - 1]).raised)
  {
    if hs != [] {
      var n := |hs| - 1;
      var hp, sp := hs[..n], sts[..n];
      TeardownRaises(hp, sts[..n]);
      var p := Teardown(hp, sp);
      assert forall j :: 0 <= j < n ==> hp[j] == hs[j] && sp[j] == sts[j];
      if p.raised {
        var k := p.processed - 1;
        assert StopStep(hs[k], sts[k]).raised;
      } else {
        assert forall j :: 0 <= j < n ==> !StopStep(hs[j], sts[j]).raised;
      }
    }
  }

  /** Teardown is idempotent: running it again on its own result raises nothing and changes no state. */
  lemma {:induction false} TeardownIdempotent(hs: seq<Process>, sts: seq<ProcState>)
    requires |hs| == |sts| && !Teardown(hs, sts).raised
    ensures var r := Teardown(hs, sts);
      var again := Teardown(hs, r.states);
      !again.raised && again.states == r.states
  {
    TeardownStopsAll(hs, sts);
    AllStoppedUnchanged(hs, Teardown(hs, sts).states);
  }

  lemma {:induction false} AllStoppedUnchanged(hs: seq<Process>, sts: seq<ProcState>)
    requires |hs| == |sts| && forall j :: 0 <= j < |sts| ==> Stopped(sts[j])
    ensures !Teardown(hs, sts).raised && Teardown(hs, sts).states == sts
  {
    if hs != [] {
      var n := |hs| - 1;
      AllStoppedUnchanged(hs[..n], sts[..n]);
      assert sts[..n] + [sts[n]] == sts;
    }
  }

  /** Once an exception escaped, later handles add nothing. */
  lemma {:induction false} TeardownAfterRaise(hs: seq<Process>, sts: seq<ProcState>, k: nat)
    requires |hs| == |sts| && k <= |hs| && Teardown(hs[..k], sts[..k]).raised
    ensures var p := Teardown(hs[..k], sts[..k]);
      Teardown(hs, sts) == TeardownResult(p.states + sts[k..], p.ops, true, p.processed)
    decreases |hs| - k
  {
    var p := Teardown(hs[..k], sts[..k]);
    if k == |hs| {
      assert hs[..k] == hs && sts[..k] == sts;
    } else {
      var n := |hs| - 1;
      assert hs[..n][..k] == hs[..k] && sts[..n][..k] == sts[..k];
      TeardownAfterRaise(hs[..n], sts[..n], k);
      var q := Teardown(hs[..n], sts[..n]);
      assert q.states == p.states + sts[..n][k..] && q.raised;
      assert Teardown(hs, sts) == TeardownResult(q.states + [sts[n]], q.ops, true, q.processed);
      assert sts[..n][k..] + [sts[n]] == sts[k..];
      assert (p.states + sts[..n][k..]) + [sts[n]] == p.states + (sts[..n][k..] + [sts[n]]);
    }
  }

  // ---------------------------------------------------------------------
  // The readiness loop and the launches, as functions of the environment

  /** The least j in [from, bound) with f(j) == want, or `bound` when there is none. */
  function Find(f: nat -> bool, want: bool, from: nat, bound: nat): (r: nat)
    requires from <= bound
    ensures from <= r <= bound
    ensures r < bound ==> f(r) == want
    ensures forall j :: from <= j < r ==> f(j) != want
    decreases bound - from
  {
    if from == bound then bound
    else if f(from) == want then from
    else Find(f, want, from + 1, bound)
  }

  /** Whether one of the first 30 connection attempts succeeds. */
  predicate SchedulerReady(probe: nat -> bool)
  {
    Find(probe, true, 0, MaxAttempts) < MaxAttempts
  }

  /** How many connection attempts the readiness loop makes. */
  function Attempts(probe: nat -> bool): nat
  {
    var k := Find(probe, true, 0, MaxAttempts);
    if k < MaxAttempts then k + 1 else MaxAttempts
  }

  /** The calls of `n` connection attempts: each one is preceded by a 0.5 s sleep. */
  function ProbeOps(n: nat): (ops: seq<Op>)
    ensures |ops| == 2 * n
  {
    if n == 0 then [] else ProbeOps(n - 1) + [Sleep(ProbeSleep), Connect(SchedulerAddress)]
  }

  /**
   * The readiness loop stops at the first successful attempt and makes at
   * most 30; each attempt is one sleep followed by one connection; every
   * attempt before the last failed, and the loop reports failure only
   * after 30 failed attempts.
   */
  lemma {:induction false} ReadinessLoop(probe: nat -> bool)
    ensures 1 <= Attempts(probe) <= MaxAttempts
    ensures forall j :: 0 <= j < Attempts(probe) - 1 ==> !probe(j)
    ensures SchedulerReady(probe) <==> probe(Attempts(probe) - 1)
    ensures !SchedulerReady(probe) <==> Attempts(probe) == MaxAttempts && forall j :: 0 <= j < MaxAttempts ==> !probe(j)
    ensures forall i :: 0 <= i < Attempts(probe) ==>
      ProbeOps(Attempts(probe))[2 * i] == Sleep(ProbeSleep) &&
      ProbeOps(Attempts(probe))[2 * i + 1] == Connect(SchedulerAddress)
  {
    ProbeOpsShape(Attempts(probe));
  }

  lemma {:induction false} ProbeOpsShape(n: nat)
    ensures forall i :: 0 <= i < n ==>
      ProbeOps(n)[2 * i] == Sleep(ProbeSleep) && ProbeOps(n)[2 * i + 1] == Connect(SchedulerAddress)
  {
    if n > 0 {
      ProbeOpsShape(n - 1);
      assert forall i :: 0 <= i < 2 * (n - 1) ==> ProbeOps(n)[i] == ProbeOps(n - 1)[i];
    }
  }

  /** `max(n, 0)`: the number of iterations of `range(n)`. */
  function RangeLen(n: int): nat
  {
    if n > 0 then n else 0
  }

  /** How many worker processes launch before the first launch that raises. */
  function SpawnedWorkers(spawns: nat -> bool, n: int): nat
  {
    Find(spawns, false, 0, RangeLen(n))
  }

  /** The calls of launching `ps`, in order. */
  function SpawnOps(ps: seq<Process>): seq<Op>
  {
    if ps == [] then [] else SpawnOps(ps[..|ps| - 1]) + [Spawn(ps[|ps| - 1])]
  }

  /** The calls of `start_scheduler`: the launch of `p`, then the readiness probes. */
  function SchedulerOps(p: Process, probe: nat -> bool): seq<Op>
  {
    [Spawn(p)] + ProbeOps(Attempts(probe))
  }

  /** Launching `ps` is one `Spawn` per handle, in the handles' order. */
  lemma {:induction false} SpawnOpsInOrder(ps: seq<Process>)
    ensures |SpawnOps(ps)| == |ps|
    ensures forall i :: 0 <= i < |ps| ==> SpawnOps(ps)[i] == Spawn(ps[i])
  {
    if ps != [] {
      SpawnOpsInOrder(ps[..|ps| - 1]);
    }
  }

  // ---------------------------------------------------------------------
  // The environment and the timer

  /** The exceptions the phases raise. */
  datatype Exc =
    | SpawnFailed       // Popen could not launch a process
    | SchedulerTimeout  // RuntimeError: no connection within 30 attempts
    | WorkersNotReady   // the client could not connect or the workers did not register within 60 s
    | InfoFailed        // scheduler_info() raised after the workers had registered
    | TaskFailed        // a probe task, or the batch of 100 tasks, failed
    | SaveFailed        // the results file could not be written
    | KillFailed        // kill() raised during cleanup

  /**
   * What the outside world does during one run. `clock(k)` is the k-th
   * `time.time()` call site: 0 overall start, 1 and 2 scheduler start and
   * ready, 3 and 4 workers start and ready, 5 and 6 first task start and
   * end, 7 and 8 batch start and end, 9 overall end. `schedulerInfoSucceeds`
   * is whether the `scheduler_info()` call that follows the workers'
   * registration returns.
   */
  datatype Env = Env(
    clock: nat -> real,
    schedulerSpawns: bool,
    schedulerBehaviour: StopBehaviour,
    probe: nat -> bool,
    workerSpawns: nat -> bool,
    workerBehaviour: nat -> StopBehaviour,
    workersRegister: bool,
    schedulerInfoSucceeds: bool,
    firstTaskSucceeds: bool,
    batchSucceeds: bool,
    saveSucceeds: bool)

  datatype Phase = Done(seconds: real) | Threw(exc: Exc)

  datatype RunOutcome = Finished(results: map<ResultKey, Value>) | Raised(exc: Exc)

  /** What `start_scheduler` returns (its elapsed time) or raises. */
  function SchedulerPhase(env: Env): Phase
  {
    if !env.schedulerSpawns then Threw(SpawnFailed)
    else if !SchedulerReady(env.probe) then Threw(SchedulerTimeout)
    else Done(env.clock(2) - env.clock(1))
  }

  /** What `start_workers` returns or raises. */
  function WorkersPhase(env: Env, nWorkers: int): Phase
  {
    if SpawnedWorkers(env.workerSpawns, nWorkers) < RangeLen(nWorkers) then Threw(SpawnFailed)
    else if !env.workersRegister then Threw(WorkersNotReady)
    else if !env.schedulerInfoSucceeds then Threw(InfoFailed)
    else Done(env.clock(4) - env.clock(3))
  }

  /** What `test_task_execution` returns (the first task's time) or raises. */
  function TaskPhase(env: Env): Phase
  {
    if env.firstTaskSucceeds && env.batchSucceeds then Done(env.clock(6) - env.clock(5))
    else Threw(TaskFailed)
  }

  /** Whether all three phases of `run` return normally. */
  predicate PhasesSucceed(env: Env, nWorkers: int)
  {
    SchedulerPhase(env).Done? && WorkersPhase(env, nWorkers).Done? && TaskPhase(env).Done?
  }

  /** The first exception the body of `run` raises, before cleanup. */
  function BodyFailure(env: Env, nWorkers: int, saving: bool): Option<Exc>
  {
    var s := SchedulerPhase(env);
    if s.Threw? then Some(s.exc) else LaterFailure(env, nWorkers, saving)
  }

  /** The first exception the body of `run` raises once the scheduler is up. */
  function LaterFailure(env: Env, nWorkers: int, saving: bool): Option<Exc>
  {
    var w, t := WorkersPhase(env, nWorkers), TaskPhase(env);
    if w.Threw? then Some(w.exc)
    else if t.Threw? then Some(t.exc)
    else if saving && !env.saveSucceeds then Some(SaveFailed)
    else None
  }

  /**
   * The body of `run` raises nothing exactly when the scheduler launches
   * and answers within 30 attempts, every worker launches and registers,
   * `scheduler_info()` returns, both task probes succeed and the file, if
   * requested, is written. The
   * readiness timeout is raised exactly when the scheduler launched but
   * never answered, and a later phase never runs once an earlier one
   * raised: the workers are only reported missing when all of them
   * launched, and a failing `scheduler_info()` is reported only once all
   * of them registered.
   */
  lemma BodyFailureCases(env: Env, nWorkers: int, saving: bool)
    ensures BodyFailure(env, nWorkers, saving).None? <==>
      && env.schedulerSpawns && SchedulerReady(env.probe)
      && SpawnedWorkers(env.workerSpawns, nWorkers) == RangeLen(nWorkers) && env.workersRegister
      && env.schedulerInfoSucceeds && env.firstTaskSucceeds && env.batchSucceeds
      && (saving ==> env.saveSucceeds)
    ensures BodyFailure(env, nWorkers, saving) == Some(SchedulerTimeout) <==>
      env.schedulerSpawns && !SchedulerReady(env.probe)
    ensures BodyFailure(env, nWorkers, saving) == Some(WorkersNotReady) ==>
      SchedulerReady(env.probe) && SpawnedWorkers(env.workerSpawns, nWorkers) == RangeLen(nWorkers)
    ensures BodyFailure(env, nWorkers, saving) == Some(InfoFailed) <==>
      && env.schedulerSpawns && SchedulerReady(env.probe)
      && SpawnedWorkers(env.workerSpawns, nWorkers) == RangeLen(nWorkers) && env.workersRegister
      && !env.schedulerInfoSucceeds
    ensures BodyFailure(env, nWorkers, saving) != Some(KillFailed)
  {
  }

  function Runnings(n: nat): (r: seq<ProcState>)
    ensures |r| == n && forall i :: 0 <= i < n ==> r[i] == Running
  {
    if n == 0 then [] else Runnings(n - 1) + [Running]
  }

  /** The keys the timer writes into its results dictionary. */
  datatype ResultKey =
    | Timestamp | NWorkers | ThreadsPerWorker
    | SchedulerStartTime | WorkersStartTime | FirstTaskTime | Batch100TasksTime | TotalTime

  /** The key as it appears in the JSON file. */
  function KeyName(k: ResultKey): string
  {
    match k
    case Timestamp => "timestamp"
    case NWorkers => "n_workers"
    case ThreadsPerWorker => "threads_per_worker"
    case SchedulerStartTime => "scheduler_start_time"
    case WorkersStartTime => "workers_start_time"
    case FirstTaskTime => "first_task_time"
    case Batch100TasksTime => "batch_100_tasks_time"
    case TotalTime => "total_time"
  }

  /** Different keys are written under different names. */
  lemma KeyNamesDistinct(a: ResultKey, b: ResultKey)
    requires a != b
    ensures KeyName(a) != KeyName(b)
  {
  }

  /** The keys the phases of `run` write, as opposed to those the constructor writes. */
  predicate PhaseKey(k: ResultKey)
  {
    !(k.Timestamp? || k.NWorkers? || k.ThreadsPerWorker?)
  }

  /**
   * The results after `start_workers`: its time is written once every
   * worker launched and registered, before `scheduler_info()` is called.
   */
  function WorkersResults(env: Env, nWorkers: int, base: map<ResultKey, Value>): map<ResultKey, Value>
  {
    if SpawnedWorkers(env.workerSpawns, nWorkers) < RangeLen(nWorkers) || !env.workersRegister then base
    else base[WorkersStartTime := Num(env.clock(4) - env.clock(3))]
  }

  /** The results after `test_task_execution`: each time is written as its tasks complete. */
  function TaskResults(env: Env, base: map<ResultKey, Value>): map<ResultKey, Value>
  {
    if !env.firstTaskSucceeds then base
    else
      var first := base[FirstTaskTime := Num(env.clock(6) - env.clock(5))];
      if !env.batchSucceeds then first
      else first[Batch100TasksTime := Num(env.clock(8) - env.clock(7))]
  }

  /**
   * The results the `try` block of `run` leaves once the scheduler is up,
   * the overall clock having started at `start`.
   */
  function LaterResults(env: Env, nWorkers: int, base: map<ResultKey, Value>, start: real): map<ResultKey, Value>
  {
    var workers := WorkersResults(env, nWorkers, base);
    if WorkersPhase(env, nWorkers).Threw? then workers
    else
      var tasks := TaskResults(env, workers);
      if TaskPhase(env).Threw? then tasks
      else tasks[TotalTime := Num(env.clock(9) - start)]
  }

  /** The total is written exactly when the workers and the tasks phase both return. */
  lemma LaterResultsTotal(env: Env, nWorkers: int, base: map<ResultKey, Value>, start: real)
    requires TotalTime !in base
    ensures var r := LaterResults(env, nWorkers, base, start);
      && (TotalTime in r <==> WorkersPhase(env, nWorkers).Done? && TaskPhase(env).Done?)
      && (TotalTime in r ==> r[TotalTime] == Num(env.clock(9) - start))
  {
  }

  /** The results after `start_scheduler`: its time is written once a client connected. */
  function SchedulerResults(env: Env, base: map<ResultKey, Value>): map<ResultKey, Value>
  {
    var phase := SchedulerPhase(env);
    if phase.Done? then base[SchedulerStartTime := Num(phase.seconds)] else base
  }

  /** The results the `try` block of `run` leaves. */
  function PhaseResults(env: Env, nWorkers: int, base: map<ResultKey, Value>): map<ResultKey, Value>
  {
    if SchedulerPhase(env).Threw? then base
    else LaterResults(env, nWorkers, SchedulerResults(env, base), env.clock(0))
  }

  /** The total is written exactly when every phase returns. */
  lemma PhaseResultsTotal(env: Env, nWorkers: int, base: map<ResultKey, Value>)
    requires TotalTime !in base
    ensures var r := PhaseResults(env, nWorkers, base);
      && (TotalTime in r <==> PhasesSucceed(env, nWorkers))
      && (TotalTime in r ==> r[TotalTime] == Num(env.clock(9) - env.clock(0)))
  {
    if SchedulerPhase(env).Done? {
      LaterResultsTotal(env, nWorkers, SchedulerResults(env, base), env.clock(0));
    }
  }

  /**
   * On results holding none of the phase keys, `run` writes each phase's
   * time exactly when that phase got as far as timing itself: the
   * scheduler's once it answered, the workers' once all of them
   * registered (even when the `scheduler_info()` after it raises), the
   * first task's once it completed, the batch's once the 100 tasks
   * completed, and the total only when every phase returned. Nothing
   * the constructor wrote is touched, and no other key is written.
   */
  lemma PhaseResultsRecorded(env: Env, nWorkers: int, base: map<ResultKey, Value>)
    requires forall k :: PhaseKey(k) ==> k !in base
    ensures var r := PhaseResults(env, nWorkers, base);
      var schedulerUp := env.schedulerSpawns && SchedulerReady(env.probe);
      var workersUp := schedulerUp && SpawnedWorkers(env.workerSpawns, nWorkers) == RangeLen(nWorkers) && env.workersRegister;
      var tasksRun := workersUp && env.schedulerInfoSucceeds;
      && (SchedulerStartTime in r <==> schedulerUp)
      && (schedulerUp ==> r[SchedulerStartTime] == Num(env.clock(2) - env.clock(1)))
      && (WorkersStartTime in r <==> workersUp)
      && (workersUp ==> r[WorkersStartTime] == Num(env.clock(4) - env.clock(3)))
      && (FirstTaskTime in r <==> tasksRun && env.firstTaskSucceeds)
      && (tasksRun && env.firstTaskSucceeds ==> r[FirstTaskTime] == Num(env.clock(6) - env.clock(5)))
      && (Batch100TasksTime in r <==> tasksRun && env.firstTaskSucceeds && env.batchSucceeds)
      && (tasksRun && env.firstTaskSucceeds && env.batchSucceeds ==>
            r[Batch100TasksTime] == Num(env.clock(8) - env.clock(7)))
      && (TotalTime in r <==> PhasesSucceed(env, nWorkers))
      && (PhasesSucceed(env, nWorkers) ==> r[TotalTime] == Num(env.clock(9) - env.clock(0)))
      && (forall k :: k in base ==> k in r && r[k] == base[k])
      && (forall k :: k in r && !PhaseKey(k) ==> k in base)
  {
    var r := PhaseResults(env, nWorkers, base);
    if SchedulerPhase(env).Done? {
      var up := SchedulerResults(env, base);
      assert up == base[SchedulerStartTime := Num(env.clock(2) - env.clock(1))];
      assert r == LaterResults(env, nWorkers, up, env.clock(0));
      LaterResultsRecorded(env, nWorkers, up, env.clock(0));
      LaterResultsKeep(env, nWorkers, up, env.clock(0));
      PhaseResultsTotal(env, nWorkers, base);
      assert WorkersPhase(env, nWorkers).Done? <==>
        SpawnedWorkers(env.workerSpawns, nWorkers) == RangeLen(nWorkers) && env.workersRegister && env.schedulerInfoSucceeds;
    } else {
      assert r == base && !PhasesSucceed(env, nWorkers);
    }
  }

  /** Once the scheduler is up, each later phase's time is written exactly when that phase timed itself. */
  lemma LaterResultsRecorded(env: Env, nWorkers: int, base: map<ResultKey, Value>, start: real)
    requires WorkersStartTime !in base && FirstTaskTime !in base && Batch100TasksTime !in base && TotalTime !in base
    ensures var r := LaterResults(env, nWorkers, base, start);
      var workersUp := SpawnedWorkers(env.workerSpawns, nWorkers) == RangeLen(nWorkers) && env.workersRegister;
      var tasksRun := WorkersPhase(env, nWorkers).Done?;
      && (WorkersStartTime in r <==> workersUp)
      && (workersUp ==> r[WorkersStartTime] == Num(env.clock(4) - env.clock(3)))
      && (FirstTaskTime in r <==> tasksRun && env.firstTaskSucceeds)
      && (tasksRun && env.firstTaskSucceeds ==> r[FirstTaskTime] == Num(env.clock(6) - env.clock(5)))
      && (Batch100TasksTime in r <==> tasksRun && env.firstTaskSucceeds && env.batchSucceeds)
      && (tasksRun && env.firstTaskSucceeds && env.batchSucceeds ==>
            r[Batch100TasksTime] == Num(env.clock(8) - env.clock(7)))
  {
    var w := WorkersResults(env, nWorkers, base);
    var r := LaterResults(env, nWorkers, base, start);
    WorkersResultsRecorded(env, nWorkers, base);
    if WorkersPhase(env, nWorkers).Threw? {
      assert r == w;
    } else {
      var t := TaskResults(env, w);
      TaskResultsRecorded(env, w);
      if TaskPhase(env).Threw? {
        assert r == t;
      } else {
        assert r == t[TotalTime := Num(env.clock(9) - start)];
      }
    }
  }

  /** `r` keeps every entry of `base` and adds only phase keys. */
  ghost predicate KeepsBase(base: map<ResultKey, Value>, r: map<ResultKey, Value>)
  {
    && (forall k :: k in base ==> k in r && r[k] == base[k])
    && (forall k :: k in r && !PhaseKey(k) ==> k in base)
  }

  lemma KeepsBaseUpdate(base: map<ResultKey, Value>, k: ResultKey, v: Value)
    requires PhaseKey(k) && k !in base
    ensures KeepsBase(base, base[k := v])
  {
  }

  lemma KeepsBaseTrans(a: map<ResultKey, Value>, b: map<ResultKey, Value>, c: map<ResultKey, Value>)
    requires KeepsBase(a, b) && KeepsBase(b, c)
    ensures KeepsBase(a, c)
  {
  }

  /** Once the scheduler is up, `run` keeps every key already written and adds only phase keys. */
  lemma LaterResultsKeep(env: Env, nWorkers: int, base: map<ResultKey, Value>, start: real)
    requires WorkersStartTime !in base && FirstTaskTime !in base && Batch100TasksTime !in base && TotalTime !in base
    ensures KeepsBase(base, LaterResults(env, nWorkers, base, start))
  {
    var w := WorkersResults(env, nWorkers, base);
    WorkersResultsRecorded(env, nWorkers, base);
    if WorkersPhase(env, nWorkers).Done? {
      var t := TaskResults(env, w);
      TaskResultsRecorded(env, w);
      KeepsBaseTrans(base, w, t);
      if TaskPhase(env).Done? {
        KeepsBaseUpdate(t, TotalTime, Num(env.clock(9) - start));
        KeepsBaseTrans(base, t, t[TotalTime := Num(env.clock(9) - start)]);
      }
    }
  }

  /** `start_workers` writes its own key, and only once every worker registered. */
  lemma WorkersResultsRecorded(env: Env, nWorkers: int, base: map<ResultKey, Value>)
    requires WorkersStartTime !in base
    ensures var r := WorkersResults(env, nWorkers, base);
      var workersUp := SpawnedWorkers(env.workerSpawns, nWorkers) == RangeLen(nWorkers) && env.workersRegister;
      && (WorkersStartTime in r <==> workersUp)
      && (workersUp ==> r[WorkersStartTime] == Num(env.clock(4) - env.clock(3)))
      && (forall k :: k in base ==> k in r && r[k] == base[k])
      && (forall k :: k in r ==> k in base || k == WorkersStartTime)
      && KeepsBase(base, r)
  {
  }

  /** `test_task_execution` writes the first task's time, then the batch's, as each completes. */
  lemma TaskResultsRecorded(env: Env, base: map<ResultKey, Value>)
    requires FirstTaskTime !in base && Batch100TasksTime !in base
    ensures var r := TaskResults(env, base);
      && (FirstTaskTime in r <==> env.firstTaskSucceeds)
      && (env.firstTaskSucceeds ==> r[FirstTaskTime] == Num(env.clock(6) - env.clock(5)))
      && (Batch100TasksTime in r <==> env.firstTaskSucceeds && env.batchSucceeds)
      && (env.firstTaskSucceeds && env.batchSucceeds ==> r[Batch100TasksTime] == Num(env.clock(8) - env.clock(7)))
      && (forall k :: k in base ==> k in r && r[k] == base[k])
      && (forall k :: k in r ==> k in base || k == FirstTaskTime || k == Batch100TasksTime)
      && KeepsBase(base, r)
  {
  }

  class SchedulerWorkerTimer {
    const nWorkers: int
    const threadsPerWorker: int
    const outputJson: Option<string>
    var schedulerProc: Process?
    var workerProcs: seq<Process>
    var results: map<ResultKey, Value>
    var ops: seq<Op>

    /** Every handle is a distinct process. */
    ghost predicate Valid()
      reads this
    {
      Distinct(workerProcs) && (schedulerProc != null ==> schedulerProc !in workerProcs)
    }

    /** A timer no phase has run on yet. */
    ghost predicate Fresh()
      reads this
    {
      schedulerProc == null && workerProcs == [] && TotalTime !in results
    }

    /**
     * The calls that launch the handles: the scheduler's launch and its
     * readiness probes, then one launch per worker.
     */
    ghost function LaunchOps(env: Env): seq<Op>
      reads this
    {
      if schedulerProc == null then []
      else SchedulerOps(schedulerProc, env.probe) + SpawnOps(workerProcs)
    }

    /** The handles in cleanup order: the workers, then the scheduler. */
    function Handles(): seq<Process>
      reads this
    {
      workerProcs + (if schedulerProc != null then [schedulerProc] else [])
    }

    constructor (nWorkers: int, threadsPerWorker: int, outputJson: Option<string>, timestamp: string)
      ensures Valid() && Fresh() && ops == []
      ensures this.nWorkers == nWorkers && this.threadsPerWorker == threadsPerWorker
      ensures this.outputJson == outputJson
      ensures results == map[Timestamp := Str(timestamp),
                             NWorkers := Num(nWorkers as real),
                             ThreadsPerWorker := Num(threadsPerWorker as real)]
    {
      this.nWorkers := nWorkers;
      this.threadsPerWorker := threadsPerWorker;
      this.outputJson := outputJson;
      schedulerProc := null;
      workerProcs := [];
      results := map[Timestamp := Str(timestamp),
                     NWorkers := Num(nWorkers as real),
                     ThreadsPerWorker := Num(threadsPerWorker as real)];
      ops := [];
    }

    /** Launches the scheduler and polls, at most 30 times, until a client connects. */
    method StartScheduler(env: Env) returns (outcome: Phase)
      requires Valid()
      modifies this`schedulerProc, this`ops, this`results
      ensures Valid() && workerProcs == old(workerProcs)
      ensures outcome == SchedulerPhase(env)
      ensures !env.schedulerSpawns ==>
        schedulerProc == old(schedulerProc) && ops == old(ops) && results == old(results)
      ensures env.schedulerSpawns ==>
        && schedulerProc != null && fresh(schedulerProc)
        && schedulerProc.command == SchedulerCommand && schedulerProc.state == Running
        && schedulerProc.behaviour == env.schedulerBehaviour
        && ops == old(ops) + SchedulerOps(schedulerProc, env.probe)
      ensures results == SchedulerResults(env, old(results))
    {
      var startTime := env.clock(1);
      if !env.schedulerSpawns {
        outcome := Threw(SpawnFailed);
        assert SchedulerResults(env, results) == results;
      } else {
        var proc := LaunchScheduler(env);
        ghost var launched := ops;
        var ready := WaitForScheduler(env);
        assert ops == launched + ProbeOps(Attempts(env.probe));
        AppendAssociative(old(ops), [Spawn(proc)], ProbeOps(Attempts(env.probe)));
        assert ops == old(ops) + SchedulerOps(proc, env.probe);
        if ready {
          var endTime := env.clock(2);
          results := results[SchedulerStartTime := Num(endTime - startTime)];
          outcome := Done(endTime - startTime);
        } else {
          outcome := Threw(SchedulerTimeout);
        }
      }
    }

    /** The `Popen` of `start_scheduler`: launches the scheduler and records its handle. */
    method LaunchScheduler(env: Env) returns (proc: Process)
      requires Valid()
      modifies this`schedulerProc, this`ops
      ensures Valid() && schedulerProc == proc && fresh(proc)
      ensures proc.command == SchedulerCommand && proc.state == Running && proc.behaviour == env.schedulerBehaviour
      ensures ops == old(ops) + [Spawn(proc)]
    {
      proc := new Process(SchedulerCommand, env.schedulerBehaviour);
      schedulerProc := proc;
      ops := ops + [Spawn(proc)];
    }

    /**
     * The readiness loop: up to 30 times, sleep 0.5 s and try to connect;
     * stop at the first connection that succeeds.
     */
    method WaitForScheduler(env: Env) returns (ready: bool)
      modifies this`ops
      ensures ops == old(ops) + ProbeOps(Attempts(env.probe))
      ensures ready == SchedulerReady(env.probe)
    {
      var attempt := 0;
      ready := false;
      while attempt < MaxAttempts && !ready
        invariant 0 <= attempt <= MaxAttempts
        invariant ready ==> 1 <= attempt && env.probe(attempt - 1)
        invariant forall j :: 0 <= j < attempt - (if ready then 1 else 0) ==> !env.probe(j)
        invariant ops == old(ops) + ProbeOps(attempt)
      {
        ops := ops + [Sleep(ProbeSleep), Connect(SchedulerAddress)];
        ready := env.probe(attempt);
        attempt := attempt + 1;
      }
      if ready {
        FindFirst(env.probe, true, 0, MaxAttempts, attempt - 1);
      } else {
        FindNone(env.probe, true, 0, MaxAttempts);
      }
    }

    /** `p` was launched as the i-th worker. */
    ghost predicate Launched(p: Process, i: nat, env: Env)
    {
      p.command == WorkerCommand(i, threadsPerWorker) && p.behaviour == env.workerBehaviour(i)
    }

    /** The handles from index `before` on are the workers 0, 1, ... launched in order. */
    ghost predicate LaunchedFrom(before: nat, env: Env)
      reads this
    {
      before <= |workerProcs| &&
      forall k :: before <= k < |workerProcs| ==> Launched(workerProcs[k], k - before, env)
    }

    /** One iteration of the launch loop: starts the i-th worker and records its handle. */
    method SpawnWorker(i: nat, env: Env, ghost before: nat) returns (proc: Process)
      requires Valid() && LaunchedFrom(before, env) && |workerProcs| == before + i
      modifies this`workerProcs, this`ops
      ensures Valid() && LaunchedFrom(before, env) && fresh(proc) && proc.state == Running
      ensures workerProcs == old(workerProcs) + [proc] && ops == old(ops) + [Spawn(proc)]
    {
      proc := new Process(WorkerCommand(i, threadsPerWorker), env.workerBehaviour(i));
      workerProcs := workerProcs + [proc];
      ops := ops + [Spawn(proc)];
    }

    /**
     * The launch loop: starts `worker-0` .. `worker-(n-1)` in order and
     * stops at the first launch that raises.
     */
    method LaunchWorkers(env: Env) returns (ok: bool, ghost launched: seq<Process>)
      requires Valid()
      modifies this`workerProcs, this`ops
      ensures Valid() && LaunchedFrom(|old(workerProcs)|, env)
      ensures workerProcs == old(workerProcs) + launched
      ensures |launched| == SpawnedWorkers(env.workerSpawns, nWorkers)
      ensures forall k :: 0 <= k < |launched| ==> fresh(launched[k]) && launched[k].state == Running
      ensures ops == old(ops) + SpawnOps(launched)
      ensures ok <==> SpawnedWorkers(env.workerSpawns, nWorkers) == RangeLen(nWorkers)
    {
      ghost var before := |workerProcs|;
      launched := [];
      var count := RangeLen(nWorkers);
      var i := 0;
      while i < count
        invariant 0 <= i <= count && |launched| == i
        invariant forall j :: 0 <= j < i ==> env.workerSpawns(j)
        invariant Valid()
        invariant workerProcs == old(workerProcs) + launched
        invariant LaunchedFrom(before, env)
        invariant forall k :: 0 <= k < i ==> fresh(launched[k]) && launched[k].state == Running
        invariant ops == old(ops) + SpawnOps(launched)
      {
        if !env.workerSpawns(i) {
          FindFirst(env.workerSpawns, false, 0, count, i);
          return false, launched;
        }
        var proc := SpawnWorker(i, env, before);
        assert (launched + [proc])[..i] == launched;
        launched := launched + [proc];
        i := i + 1;
      }
      FindNone(env.workerSpawns, false, 0, count);
      ok := true;
    }

    /**
     * Launches the workers, waits until all of them registered, records
     * the time and asks the scheduler for the workers' details.
     */
    method StartWorkers(env: Env) returns (outcome: Phase, ghost launched: seq<Process>)
      requires Valid()
      modifies this`workerProcs, this`ops, this`results
      ensures Valid() && LaunchedFrom(|old(workerProcs)|, env)
      ensures workerProcs == old(workerProcs) + launched
      ensures |launched| == SpawnedWorkers(env.workerSpawns, nWorkers)
      ensures forall k :: 0 <= k < |launched| ==> fresh(launched[k]) && launched[k].state == Running
      ensures ops == old(ops) + SpawnOps(launched)
      ensures outcome == WorkersPhase(env, nWorkers)
      ensures results == WorkersResults(env, nWorkers, old(results))
    {
      var startTime := env.clock(3);
      var ok;
      ok, launched := LaunchWorkers(env);
      if !ok {
        return Threw(SpawnFailed), launched;
      }
      if !env.workersRegister {
        return Threw(WorkersNotReady), launched;
      }
      var endTime := env.clock(4);
      results := results[WorkersStartTime := Num(endTime - startTime)];
      if !env.schedulerInfoSucceeds {
        return Threw(InfoFailed), launched;
      }
      outcome := Done(endTime - startTime);
    }

    /** Runs one probe task and then a batch of 100 tasks. */
    method TestTaskExecution(env: Env) returns (outcome: Phase)
      modifies this`results
      ensures outcome == TaskPhase(env)
      ensures results == TaskResults(env, old(results))
    {
      var startTime := env.clock(5);
      if !env.firstTaskSucceeds {
        return Threw(TaskFailed);
      }
      var endTime := env.clock(6);
      results := results[FirstTaskTime := Num(endTime - startTime)];
      var startBatch := env.clock(7);
      if !env.batchSucceeds {
        return Threw(TaskFailed);
      }
      var endBatch := env.clock(8);
      results := results[Batch100TasksTime := Num(endBatch - startBatch)];
      outcome := Done(endTime - startTime);
    }

    /** One iteration of cleanup: SIGTERM and wait, or `kill()` if either raised. */
    method StopHandle(p: Process) returns (raised: bool)
      modifies this`ops, p
      ensures var s := StopStep(p, old(p.state));
        p.state == s.state && ops == old(ops) + s.ops && raised == s.raised
    {
      var failed := false;
      ops := ops + [SendSignal(p, SigTerm)];
      if !Stopped(p.state) && p.behaviour.signalRaises {
        failed := true;
      } else {
        if !Stopped(p.state) {
          p.state := Terminating;
        }
        ops := ops + [Wait(p, StopTimeout)];
        if !Stopped(p.state) && p.behaviour.waitTimesOut {
          failed := true;
        } else if !Stopped(p.state) {
          p.state := Terminated;
        }
      }
      raised := false;
      if failed {
        ops := ops + [SendSignal(p, SigKill)];
        if p.behaviour.killRaises {
          raised := true;
        } else {
          p.state := Killed;
        }
      }
    }

    /**
     * The handles `hs`, which start in states `sts`, are as teardown
     * leaves the first `i` of them, and the calls made since `base` are
     * the calls teardown makes on those.
     */
    ghost predicate TornDown(hs: seq<Process>, sts: seq<ProcState>, i: nat, base: seq<Op>)
      requires |hs| == |sts| && i <= |hs|
      reads this, hs
    {
      var td := Teardown(hs[..i], sts[..i]);
      && ops == base + td.ops
      && (forall j :: 0 <= j < i ==> hs[j].state == td.states[j])
      && (forall j :: i <= j < |hs| ==> hs[j].state == sts[j])
    }

    /** Stops handle `i`, the next one teardown reaches. */
    method StopNext(p: Process, ghost hs: seq<Process>, ghost sts: seq<ProcState>, i: nat, ghost base: seq<Op>) returns (raised: bool)
      requires Distinct(hs) && |hs| == |sts| && i < |hs| && p == hs[i]
      requires TornDown(hs, sts, i, base) && !Teardown(hs[..i], sts[..i]).raised
      modifies this`ops, hs[i]
      ensures TornDown(hs, sts, i + 1, base) && raised == Teardown(hs[..i + 1], sts[..i + 1]).raised
    {
      ghost var td := Teardown(hs[..i], sts[..i]);
      ghost var s := StopStep(hs[i], sts[i]);
      TeardownStep(hs, sts, i);
      raised := StopHandle(p);
      assert forall j :: 0 <= j < |hs| && j != i ==> hs[j].state == old(hs[j].state) by {
        assert forall j :: 0 <= j < |hs| && j != i ==> hs[j] != hs[i];
      }
      AppendAssociative(base, td.ops, s.ops);
    }

    /**
     * The first loop of cleanup: stops the workers in order, until a
     * `kill()` raises. The workers are the first handles of `hs`, which
     * start in states `sts`; once an exception escaped, the state is
     * already that of a teardown of all of `hs`.
     */
    method StopWorkers(ghost hs: seq<Process>, ghost sts: seq<ProcState>) returns (raised: bool)
      requires Distinct(hs) && |hs| == |sts| && |workerProcs| <= |hs| && hs[..|workerProcs|] == workerProcs
      requires TornDown(hs, sts, 0, ops)
      modifies this`ops, workerProcs
      ensures !raised ==> !Teardown(hs[..|workerProcs|], sts[..|workerProcs|]).raised
      ensures !raised ==> TornDown(hs, sts, |workerProcs|, old(ops))
      ensures raised ==> Teardown(hs, sts).raised && TornDown(hs, sts, |hs|, old(ops))
    {
      raised := false;
      var i := 0;
      while i < |workerProcs| && !raised
        invariant 0 <= i <= |workerProcs| && hs[..|workerProcs|] == workerProcs
        invariant TornDown(hs, sts, i, old(ops)) && raised == Teardown(hs[..i], sts[..i]).raised
      {
        raised := StopNext(workerProcs[i], hs, sts, i, old(ops));
        i := i + 1;
      }
      if raised {
        TeardownAfterRaise(hs, sts, i);
        ghost var td, all := Teardown(hs[..i], sts[..i]), Teardown(hs, sts);
        ConcatRest(td.states, sts, i);
        assert forall j :: 0 <= j < |hs| ==> hs[j].state == all.states[j];
        assert hs[..|hs|] == hs && sts[..|hs|] == sts;
      }
    }

    /**
     * Stops every worker, in order, and then the scheduler if there is
     * one; `sts` are the states the handles start in.
     */
    method Cleanup(ghost sts: seq<ProcState>) returns (raised: bool)
      requires Valid() && |sts| == |Handles()|
      requires forall j :: 0 <= j < |sts| ==> Handles()[j].state == sts[j]
      modifies this`ops, Handles()
      ensures var hs := old(Handles());
        var r := Teardown(hs, sts);
        && ops == old(ops) + r.ops
        && (forall j :: 0 <= j < |hs| ==> hs[j].state == r.states[j])
        && raised == r.raised
    {
      ghost var hs := Handles();
      var n := |workerProcs|;
      assert hs[..n] == workerProcs && hs[..0] == [] && sts[..0] == [];
      if schedulerProc != null {
        DistinctSnoc(workerProcs, schedulerProc);
      }
      raised := StopWorkers(hs, sts);
      if !raised {
        raised := StopScheduler(hs, sts, old(ops));
      }
      TornDownComplete(hs, sts, old(ops));
    }

    /** The second part of cleanup: stops the scheduler, if there is one. */
    method StopScheduler(ghost hs: seq<Process>, ghost sts: seq<ProcState>, ghost base: seq<Op>) returns (raised: bool)
      requires Distinct(hs) && |hs| == |sts|
      requires |hs| == |workerProcs| + (if schedulerProc != null then 1 else 0)
      requires schedulerProc != null ==> hs[|workerProcs|] == schedulerProc
      requires TornDown(hs, sts, |workerProcs|, base) && !Teardown(hs[..|workerProcs|], sts[..|workerProcs|]).raised
      modifies this`ops, hs
      ensures TornDown(hs, sts, |hs|, base) && raised == Teardown(hs, sts).raised
    {
      var n := |workerProcs|;
      if schedulerProc != null {
        raised := StopNext(schedulerProc, hs, sts, n, base);
        assert hs[..n + 1] == hs && sts[..n + 1] == sts;
      } else {
        raised := false;
        assert hs[..n] == hs && sts[..n] == sts;
      }
    }

    /** Teardown has reached every handle of `hs`. */
    lemma TornDownComplete(hs: seq<Process>, sts: seq<ProcState>, base: seq<Op>)
      requires |hs| == |sts| && TornDown(hs, sts, |hs|, base)
      ensures var r := Teardown(hs, sts);
        ops == base + r.ops && forall j :: 0 <= j < |hs| ==> hs[j].state == r.states[j]
    {
      assert hs[..|hs|] == hs && sts[..|hs|] == sts;
    }

    /**
     * The `try` block of `run`: the three phases in order, the total time
     * once all of them returned, and the save when an output file is set.
     */
    method RunPhases(env: Env) returns (failure: Option<Exc>)
      requires Valid() && Fresh()
      modifies this
      ensures Valid() && (schedulerProc != null) == env.schedulerSpawns
      ensures schedulerProc != null ==>
        && fresh(schedulerProc) && schedulerProc.state == Running
        && schedulerProc.command == SchedulerCommand && schedulerProc.behaviour == env.schedulerBehaviour
      ensures |workerProcs| == (if SchedulerPhase(env).Done? then SpawnedWorkers(env.workerSpawns, nWorkers) else 0)
      ensures LaunchedFrom(0, env)
      ensures forall k :: 0 <= k < |workerProcs| ==> fresh(workerProcs[k]) && workerProcs[k].state == Running
      ensures ops == old(ops) + LaunchOps(env)
      ensures results == PhaseResults(env, nWorkers, old(results))
      ensures failure == BodyFailure(env, nWorkers, PathGiven(outputJson))
      ensures (TotalTime in results) <==> PhasesSucceed(env, nWorkers)
      ensures PhasesSucceed(env, nWorkers) ==> results[TotalTime] == Num(env.clock(9) - env.clock(0))
    {
      PhaseResultsTotal(env, nWorkers, results);
      var overallStart := env.clock(0);
      var scheduler := StartScheduler(env);
      if scheduler.Threw? {
        if schedulerProc != null {
          assert LaunchOps(env) == SchedulerOps(schedulerProc, env.probe) + [];
        }
        return Some(scheduler.exc);
      }
      failure := AfterScheduler(env, overallStart);
      AppendAssociative(old(ops), SchedulerOps(schedulerProc, env.probe), SpawnOps(workerProcs));
    }

    /** The rest of the `try` block of `run`, once the scheduler is up. */
    method AfterScheduler(env: Env, overallStart: real) returns (failure: Option<Exc>)
      requires Valid() && workerProcs == [] && TotalTime !in results
      modifies this`workerProcs, this`ops, this`results
      ensures Valid()
      ensures |workerProcs| == SpawnedWorkers(env.workerSpawns, nWorkers) && LaunchedFrom(0, env)
      ensures forall k :: 0 <= k < |workerProcs| ==> fresh(workerProcs[k]) && workerProcs[k].state == Running
      ensures ops == old(ops) + SpawnOps(workerProcs)
      ensures results == LaterResults(env, nWorkers, old(results), overallStart)
      ensures failure == LaterFailure(env, nWorkers, PathGiven(outputJson))
      ensures (TotalTime in results) <==> WorkersPhase(env, nWorkers).Done? && TaskPhase(env).Done?
      ensures TotalTime in results ==> results[TotalTime] == Num(env.clock(9) - overallStart)
    {
      LaterResultsTotal(env, nWorkers, results, overallStart);
      ghost var base := results;
      var workers, launched := StartWorkers(env);
      assert workerProcs == launched;
      if workers.Threw? {
        return Some(workers.exc);
      }
      failure := AfterWorkers(env, overallStart, base);
    }

    /**
     * The rest of the `try` block once `start_workers` returned: the task
     * probes, the total time and the optional save. `base` is the results
     * map before `start_workers`.
     */
    method AfterWorkers(env: Env, overallStart: real, ghost base: map<ResultKey, Value>)
      returns (failure: Option<Exc>)
      requires WorkersPhase(env, nWorkers).Done? && results == WorkersResults(env, nWorkers, base)
      modifies this`results
      ensures results == LaterResults(env, nWorkers, base, overallStart)
      ensures failure == LaterFailure(env, nWorkers, PathGiven(outputJson))
    {
      failure := None;
      var tasks := TestTaskExecution(env);
      if tasks.Threw? {
        return Some(tasks.exc);
      }
      var overallEnd := env.clock(9);
      results := results[TotalTime := Num(overallEnd - overallStart)];
      if PathGiven(outputJson) && !env.saveSucceeds {
        failure := Some(SaveFailed);
      }
    }

    /**
     * The whole study on a fresh timer: the phases inside `try`, then
     * `cleanup()` in `finally`. Cleanup runs on every path and stops the
     * handles in order; an exception from it replaces the one in flight.
     */
    method Run(env: Env) returns (outcome: RunOutcome)
      requires Valid() && Fresh()
      modifies this
      ensures Valid() && (schedulerProc != null) == env.schedulerSpawns
      ensures schedulerProc != null ==>
        fresh(schedulerProc) && schedulerProc.command == SchedulerCommand && schedulerProc.behaviour == env.schedulerBehaviour
      ensures |workerProcs| == (if SchedulerPhase(env).Done? then SpawnedWorkers(env.workerSpawns, nWorkers) else 0)
      ensures LaunchedFrom(0, env) && forall k :: 0 <= k < |workerProcs| ==> fresh(workerProcs[k])
      ensures results == PhaseResults(env, nWorkers, old(results))
      ensures var hs := Handles();
        var r := Teardown(hs, Runnings(|hs|));
        && ops == old(ops) + LaunchOps(env) + r.ops
        && (forall j :: 0 <= j < |hs| ==> hs[j].state == r.states[j])
        && (r.raised ==> outcome == Raised(KillFailed))
        && (!r.raised ==> outcome == match BodyFailure(env, nWorkers, PathGiven(outputJson))
                                     case None => Finished(results)
                                     case Some(e) => Raised(e))
      ensures (TotalTime in results) <==> PhasesSucceed(env, nWorkers)
      ensures PhasesSucceed(env, nWorkers) ==> results[TotalTime] == Num(env.clock(9) - env.clock(0))
    {
      var failure := RunPhases(env);
      ghost var hs := Handles();
      var raised := Cleanup(Runnings(|hs|));
      if raised {
        outcome := Raised(KillFailed);
      } else if failure.Some? {
        outcome := Raised(failure.value);
      } else {
        outcome := Finished(results);
      }
    }
  }

  /** The states after an early stop: the first k changed, the rest as they were. */
  lemma ConcatRest<T>(front: seq<T>, all: seq<T>, k: nat)
    requires |front| == k <= |all|
    ensures |front + all[k..]| == |all|
    ensures forall j :: 0 <= j < k ==> (front + all[k..])[j] == front[j]
    ensures forall j :: k <= j < |all| ==> (front + all[k..])[j] == all[j]
  {
  }

  lemma DistinctSnoc<T>(s: seq<T>, x: T)
    requires Distinct(s) && x !in s
    ensures Distinct(s + [x])
  {
  }

  lemma {:induction false} FindFirst(f: nat -> bool, want: bool, from: nat, bound: nat, k: nat)
    requires from <= k < bound && f(k) == want && forall j :: from <= j < k ==> f(j) != want
    ensures Find(f, want, from, bound) == k
    decreases k - from
  {
    if from < k {
      FindFirst(f, want, from + 1, bound, k);
    }
  }

  lemma {:induction false} FindNone(f: nat -> bool, want: bool, from: nat, bound: nat)
    requires from <= bound && forall j :: from <= j < bound ==> f(j) != want
    ensures Find(f, want, from, bound) == bound
    decreases bound - from
  {
    if from < bound {
      FindNone(f, want, from + 1, bound);
    }
  }
}
