/**
 * `RunCMD` and the process side of `ChildRunCMD`, as a state machine over an
 * abstract operating system: the `Kernel` class records every system call
 * the code makes and answers each of them from a fixed environment.
 */
module Executor {
  import opened Wrappers
  import opened PyText
  import opened ProcessTree

  /** The signal number of `signal.SIGKILL`. */
  const SIGKILL := 9

  /** How the spawned shell command runs once started. */
  datatype ChildRun =
    | Exits(rc: int, output: string, seconds: nat)  // exits after `seconds` with `returncode` rc and this stdout+stderr
    | Hangs                                         // never exits by itself

  /**
   * What the operating system will do: whether `Popen` raises, the pid of
   * the spawn, how the spawn runs, and what `ps` prints for each parent pid.
   */
  datatype Env = Env(spawnFails: bool, pid: int, run: ChildRun, ps: map<int, string>)

  /** The output of `ps --no-headers -o pid --ppid <ppid>`: nothing for a pid without children. */
  function PsOutputFor(env: Env, ppid: int): string
  {
    if ppid in env.ps then env.ps[ppid] else ""
  }

  /** A system call made by `RunCMD`, or the signal it receives. */
  datatype Event =
    | Spawn(cmd: string)        // subprocess.Popen(cmd, shell=True, ...)
    | Handler                   // signal.signal(SIGALRM, alarm_handler)
    | Alarm(seconds: int)       // signal.alarm(seconds); 0 cancels
    | Wait(pid: int)            // p.communicate()
    | Sigalrm                   // the alarm fires while waiting
    | Signal(pid: int, sig: int)  // os.kill(pid, sig)

  /** The alarm fires before the command exits: it never exits, or not within `timeout` seconds. */
  predicate AlarmFirst(run: ChildRun, timeout: int)
  {
    run.Hangs? || run.seconds >= timeout
  }

  /** `RunCMD` returns at all: unless the command never exits while no alarm is set. */
  predicate Returns(env: Env, timeout: int)
  {
    env.spawnFails || timeout > 0 || env.run.Exits?
  }

  /** The outcome of the spawn and wait steps. */
  datatype Step = SpawnFailed | TimedOut | Completed(rc: int, output: string)

  function StepOf(env: Env, timeout: int): Step
    requires Returns(env, timeout)
  {
    if env.spawnFails then SpawnFailed
    else if timeout > 0 && AlarmFirst(env.run, timeout) then TimedOut
    else Completed(env.run.rc, env.run.output)
  }

  /** What one call of `RunCMD` ends with: a returned pair, or the `ValueError` of `ChildRunCMD`. */
  datatype Outcome = Returned(rc: int, output: Option<string>) | ValueErrorRaised

  /** The kill list of the timeout path, `[p.pid] + ChildRunCMD(p.pid)`; `None` when `int()` raises. */
  function KillList(env: Env): (r: Option<seq<int>>)
    ensures r.Some? <==> ParsePids(PsOutputFor(env, env.pid)).Some?
    ensures r.Some? ==> |r.value| >= 1 && r.value[0] == env.pid
    ensures r.Some? ==> r.value[1..] == ParsePids(PsOutputFor(env, env.pid)).value
  {
    match ParsePids(PsOutputFor(env, env.pid))
    case None => None
    case Some(children) => Some([env.pid] + children)
  }

  /** What `RunCMD(cmd, timeout)` returns in `env`. */
  function RunOutcome(env: Env, timeout: int): Outcome
    requires Returns(env, timeout)
  {
    match StepOf(env, timeout)
    case SpawnFailed => Returned(-2, None)
    case TimedOut => if KillList(env).None? then ValueErrorRaised else Returned(-1, None)
    case Completed(rc, output) => Returned(rc, Some(DropLast(output)))
  }

  /** The system calls `RunCMD(cmd, timeout)` makes in `env`, in order. */
  function Syscalls(cmd: string, env: Env, timeout: int): seq<Event>
    requires Returns(env, timeout)
  {
    if env.spawnFails then [Spawn(cmd)]
    else
      match StepOf(env, timeout)
      case TimedOut =>
        Waited(cmd, env, timeout) + [Sigalrm, Spawn(PsCommand(env.pid))]
        + (if KillList(env).None? then [] else [Signal(env.pid, SIGKILL)])
      case _ =>
        Waited(cmd, env, timeout) + (if timeout > 0 then [Alarm(0)] else [])
  }

  /** The calls up to the wait: spawn, arm the alarm when `timeout > 0`, wait. */
  function Waited(cmd: string, env: Env, timeout: int): seq<Event>
  {
    [Spawn(cmd)] + (if timeout > 0 then [Handler, Alarm(timeout)] else []) + [Wait(env.pid)]
  }

  /** The processes alive after `RunCMD`, given those alive before. */
  function AliveAfter(env: Env, timeout: int, alive: set<int>): set<int>
    requires Returns(env, timeout)
  {
    if env.spawnFails then alive
    else if RunOutcome(env, timeout) == ValueErrorRaised then alive + {env.pid}
    else alive - {env.pid}
  }

  // ---------------------------------------------------------------------------
  // What the result and the system calls of RunCMD guarantee

  /** Output comes back exactly when the command is spawned and exits before the deadline. */
  lemma OutputIffCompleted(env: Env, timeout: int)
    requires Returns(env, timeout)
    ensures var r := RunOutcome(env, timeout);
      (r.Returned? && r.output.Some?)
      <==> (!env.spawnFails && env.run.Exits? && (timeout <= 0 || env.run.seconds < timeout))
  {
  }

  /** A result without output is one of the two sentinels: -2 for a failed spawn, -1 for a timeout. */
  lemma SentinelResults(env: Env, timeout: int)
    requires Returns(env, timeout)
    ensures var r := RunOutcome(env, timeout);
      r.Returned? && r.output.None? ==>
        (env.spawnFails && r.rc == -2) || (StepOf(env, timeout) == TimedOut && r.rc == -1)
    ensures env.spawnFails ==> RunOutcome(env, timeout) == Returned(-2, None)
  {
  }

  /**
   * On completion the return code is the command's and exactly one trailing
   * character of its output is dropped: whatever it is, newline or not; an
   * empty output stays empty.
   */
  lemma CompletedOutput(env: Env, timeout: int)
    requires Returns(env, timeout) && StepOf(env, timeout).Completed?
    ensures var r := RunOutcome(env, timeout); var out := env.run.output;
      && r.Returned? && r.rc == env.run.rc && r.output.Some?
      && (out == [] ==> r.output.value == [])
      && (out != [] ==> r.output.value + [out[|out| - 1]] == out)
  {
    var out := env.run.output;
    if out != [] {
      assert DropLast(out) + [out[|out| - 1]] == out;
    }
  }

  /** `RunCMD("echo -n hello")` hands back `hell`: the last letter goes, as there is no newline to drop. */
  lemma EchoWithoutNewline(pid: int)
    ensures RunOutcome(Env(false, pid, Exits(0, "hello", 0), map[]), 0) == Returned(0, Some("hell"))
  {
    assert DropLast("hello") == "hello"[..4] == "hell";
  }

  /** `RunCMD("true")` hands back `(0, "")`. */
  lemma TrueCommand(pid: int)
    ensures RunOutcome(Env(false, pid, Exits(0, "", 0), map[]), 0) == Returned(0, Some(""))
  {
  }

  /** The alarm pending after a sequence of calls, from none: the last `alarm(n)` unless it has fired since. */
  function PendingAlarm(trace: seq<Event>): int
  {
    if trace == [] then 0
    else
      match trace[|trace| - 1]
      case Alarm(n) => n
      case Sigalrm => 0
      case _ => PendingAlarm(trace[..|trace| - 1])
  }

  /** Some call `alarm(n)` with `n > 0` is made. */
  predicate Armed(trace: seq<Event>)
  {
    exists i :: 0 <= i < |trace| && trace[i].Alarm? && trace[i].seconds > 0
  }

  /** When `RunCMD` returns, no alarm is left pending, so none can fire into later work. */
  lemma {:induction false} NoAlarmLeftPending(cmd: string, env: Env, timeout: int)
    requires Returns(env, timeout)
    ensures PendingAlarm(Syscalls(cmd, env, timeout)) == 0
  {
    var tr := Syscalls(cmd, env, timeout);
    if !env.spawnFails {
      var waited := Waited(cmd, env, timeout);
      if StepOf(env, timeout).TimedOut? {
        TimedOutCase(cmd, env, timeout, {});
        var ps := waited + [Sigalrm] + [Spawn(PsCommand(env.pid))];
        PendingAfter(waited, Sigalrm);
        PendingAfter(waited + [Sigalrm], Spawn(PsCommand(env.pid)));
        if KillList(env).Some? {
          PendingAfter(ps, Signal(env.pid, SIGKILL));
        }
      } else {
        CompletedCase(cmd, env, timeout, {});
        if timeout > 0 {
          PendingAfter(waited, Alarm(0));
        } else {
          assert tr == [] + [Spawn(cmd)] + [Wait(env.pid)];
          PendingAfter([], Spawn(cmd));
          PendingAfter([Spawn(cmd)], Wait(env.pid));
        }
      }
    }
  }

  /** One more call: `alarm(n)` leaves n pending, SIGALRM none, any other call changes nothing. */
  lemma PendingAfter(trace: seq<Event>, e: Event)
    ensures PendingAlarm(trace + [e])
         == if e.Alarm? then e.seconds else if e.Sigalrm? then 0 else PendingAlarm(trace)
  {
    assert (trace + [e])[..|trace|] == trace;
  }



  /** The alarm is armed only when `timeout > 0`, always with `timeout` seconds, and never after a failed spawn. */
  lemma AlarmOnlyWithTimeout(cmd: string, env: Env, timeout: int)
    requires Returns(env, timeout)
    ensures Armed(Syscalls(cmd, env, timeout)) <==> (!env.spawnFails && timeout > 0)
    ensures var tr := Syscalls(cmd, env, timeout);
      forall i :: 0 <= i < |tr| && tr[i].Alarm? && tr[i].seconds > 0 ==> tr[i].seconds == timeout
    ensures env.spawnFails ==> Syscalls(cmd, env, timeout) == [Spawn(cmd)]
  {
    var tr := Syscalls(cmd, env, timeout);
    if !env.spawnFails && timeout > 0 {
      assert tr[2] == Alarm(timeout);
    }
  }

  /** With a timeout, a completed command's result is returned only after `alarm(0)` cancels the alarm. */
  lemma DisarmedBeforeOutput(cmd: string, env: Env, timeout: int)
    requires Returns(env, timeout) && timeout > 0
    requires RunOutcome(env, timeout).Returned? && RunOutcome(env, timeout).output.Some?
    ensures var tr := Syscalls(cmd, env, timeout); tr[|tr| - 1] == Alarm(0)
  {
  }

  /** The pids signalled by a sequence of calls, in order. */
  function Signalled(trace: seq<Event>): seq<int>
  {
    if trace == [] then []
    else Signalled(trace[..|trace| - 1]) + (if trace[|trace| - 1].Signal? then [trace[|trace| - 1].pid] else [])
  }

  lemma {:induction false} SignalledAppend(a: seq<Event>, b: seq<Event>)
    ensures Signalled(a + b) == Signalled(a) + Signalled(b)
    decreases |b|
  {
    if b == [] {
      assert a + b == a;
    } else {
      var b' := b[..|b| - 1];
      SignalledAppend(a, b');
      assert (a + b)[..|a + b| - 1] == a + b';
    }
  }

  /** Nothing but signals is counted: a sequence without `Signal` calls signals no one. */
  lemma {:induction false} SignalledNone(a: seq<Event>)
    requires forall i :: 0 <= i < |a| ==> !a[i].Signal?
    ensures Signalled(a) == []
  {
    if a != [] {
      SignalledNone(a[..|a| - 1]);
    }
  }

  /**
   * As written, the timeout path signals only the first element of the kill
   * list, `p.pid`; no other path signals anything.
   */
  lemma OnlyFirstSignalled(cmd: string, env: Env, timeout: int)
    requires Returns(env, timeout)
    ensures Signalled(Syscalls(cmd, env, timeout))
         == if StepOf(env, timeout) == TimedOut && KillList(env).Some? then KillList(env).value[..1] else []
  {
    if env.spawnFails {
      SignalledNone([Spawn(cmd)]);
    } else if StepOf(env, timeout).TimedOut? {
      SignalledOnTimeout(cmd, env, timeout);
    } else {
      SignalledOnCompletion(cmd, env, timeout);
    }
  }

  lemma WaitedSignalsNone(cmd: string, env: Env, timeout: int)
    ensures Signalled(Waited(cmd, env, timeout)) == []
  {
    SignalledNone(Waited(cmd, env, timeout));
  }

  lemma SignalledOnTimeout(cmd: string, env: Env, timeout: int)
    requires Returns(env, timeout) && !env.spawnFails && StepOf(env, timeout).TimedOut?
    ensures Signalled(Syscalls(cmd, env, timeout)) == if KillList(env).Some? then [env.pid] else []
  {
    TimedOutCase(cmd, env, timeout, {});
    var wake := Waited(cmd, env, timeout) + [Sigalrm] + [Spawn(PsCommand(env.pid))];
    WakeSignalsNone(cmd, env, timeout);
    if KillList(env).Some? {
      assert Syscalls(cmd, env, timeout) == wake + [Signal(env.pid, SIGKILL)];
      SignalledAppend(wake, [Signal(env.pid, SIGKILL)]);
      assert Signalled([Signal(env.pid, SIGKILL)]) == [env.pid] by {
        assert [Signal(env.pid, SIGKILL)][..0] == [];
      }
    } else {
      assert wake + [] == wake;
      assert Syscalls(cmd, env, timeout) == wake;
    }
  }

  lemma WakeSignalsNone(cmd: string, env: Env, timeout: int)
    ensures Signalled(Waited(cmd, env, timeout) + [Sigalrm] + [Spawn(PsCommand(env.pid))]) == []
  {
    SignalledNone(Waited(cmd, env, timeout) + [Sigalrm] + [Spawn(PsCommand(env.pid))]);
  }


  lemma SignalledOnCompletion(cmd: string, env: Env, timeout: int)
    requires Returns(env, timeout) && !env.spawnFails && StepOf(env, timeout).Completed?
    ensures Signalled(Syscalls(cmd, env, timeout)) == []
  {
    CompletedCase(cmd, env, timeout, {});
    var w := Waited(cmd, env, timeout);
    var disarm := if timeout > 0 then [Alarm(0)] else [];
    WaitedSignalsNone(cmd, env, timeout);
    SignalledAppend(w, disarm);
    SignalledNone(disarm);
  }



  /**
   * The sweep is not full: on a timeout every direct child in the kill list
   * other than the spawn itself is left unsignalled.
   */
  lemma SweepIsNotFull(cmd: string, env: Env, timeout: int, q: int)
    requires Returns(env, timeout) && StepOf(env, timeout) == TimedOut
    requires KillList(env).Some? && q in KillList(env).value && q != env.pid
    ensures q !in Signalled(Syscalls(cmd, env, timeout))
  {
    OnlyFirstSignalled(cmd, env, timeout);
  }

  /**
   * `ChildRunCMD` looks one generation down: what `ps` reports for any pid
   * other than the spawn's, the spawn's grandchildren among it, has no
   * effect on the kill list.
   */
  lemma KillListOneGeneration(env: Env, q: int, out: string)
    requires q != env.pid
    ensures KillList(env.(ps := env.ps[q := out])) == KillList(env)
  {
    assert PsOutputFor(env.(ps := env.ps[q := out]), env.pid) == PsOutputFor(env, env.pid);
  }

  /** When `ps` lists the spawn's children, the kill list is the spawn followed by them, in order. */
  lemma KillListOfChildren(env: Env, children: seq<nat>)
    requires env.pid in env.ps && env.ps[env.pid] == PsOutput(children)
    ensures KillList(env) == Some([env.pid] + children)
  {
    ParsePsOutput(children);
  }

  /**
   * A spawn with one child that has a child of its own: the kill list holds
   * the spawn and the child, not the grandchild.
   */
  lemma GrandchildMissed(pid: nat, child: nat, grandchild: nat)
    requires child != pid && grandchild != pid && grandchild != child
    ensures var env := Env(false, pid, Hangs, map[pid := PsOutput([child]), child := PsOutput([grandchild])]);
      KillList(env) == Some([pid as int, child]) && grandchild !in KillList(env).value
  {
    var env := Env(false, pid, Hangs, map[pid := PsOutput([child]), child := PsOutput([grandchild])]);
    assert PsOutputFor(env, pid) == PsOutput([child]);
    ParsePsOutput([child]);
    assert ParsePids(PsOutputFor(env, pid)) == Some([child as int]);
    assert KillList(env) == Some([pid as int] + [child as int]);
    assert [pid as int] + [child as int] == [pid as int, child];
  }

  /**
   * The operating system as `RunCMD` sees it: it answers each call from
   * `env` and records it in `trace`.
   */
  class Kernel {
    const env: Env
    var alarm: nat         // seconds until SIGALRM; 0 when no alarm is pending
    var alive: set<int>    // the processes that exist
    var trace: seq<Event>  // the calls made so far

    constructor (env: Env, alive: set<int>)
      ensures this.env == env && this.alive == alive
      ensures alarm == 0 && trace == []
    {
      this.env := env;
      this.alive := alive;
      alarm := 0;
      trace := [];
    }

    /** `subprocess.Popen(cmd, shell=True, stdout=PIPE, stderr=STDOUT)`; `ok` false when it raises. */
    method Popen(cmd: string) returns (ok: bool, pid: int)
      modifies this
      ensures ok == !env.spawnFails && pid == env.pid
      ensures trace == old(trace) + [Spawn(cmd)]
      ensures alive == if ok then old(alive) + {env.pid} else old(alive)
      ensures alarm == old(alarm)
    {
      ok, pid := !env.spawnFails, env.pid;
      trace := trace + [Spawn(cmd)];
      if ok {
        alive := alive + {pid};
      }
    }

    /** `signal.signal(signal.SIGALRM, alarm_handler)`. */
    method InstallHandler()
      modifies this
      ensures trace == old(trace) + [Handler]
      ensures alarm == old(alarm) && alive == old(alive)
    {
      trace := trace + [Handler];
    }

    /** `signal.alarm(seconds)`: replaces any pending alarm; 0 cancels it. */
    method SetAlarm(seconds: nat)
      modifies this
      ensures alarm == seconds
      ensures trace == old(trace) + [Alarm(seconds)]
      ensures alive == old(alive)
    {
      alarm := seconds;
      trace := trace + [Alarm(seconds)];
    }

    /**
     * `p.communicate()`: waits for the spawn to exit, unless the pending
     * alarm fires first (`alarmed`). It cannot return when the spawn never
     * exits and no alarm is pending.
     */
    method Communicate() returns (alarmed: bool, rc: int, out: string)
      requires alarm > 0 || env.run.Exits?
      modifies this
      ensures alarmed == (old(alarm) > 0 && AlarmFirst(env.run, old(alarm)))
      ensures !alarmed ==> env.run.Exits? && rc == env.run.rc && out == env.run.output
      ensures trace == old(trace) + [Wait(env.pid)] + (if alarmed then [Sigalrm] else [])
      ensures alarm == if alarmed || old(alarm) == 0 then 0 else old(alarm) - env.run.seconds
      ensures alive == if alarmed then old(alive) else old(alive) - {env.pid}
    {
      alarmed := alarm > 0 && AlarmFirst(env.run, alarm);
      trace := trace + [Wait(env.pid)];
      if alarmed {
        rc, out := 0, "";
        alarm := 0;
        trace := trace + [Sigalrm];
      } else {
        rc, out := env.run.rc, env.run.output;
        if alarm > 0 {
          alarm := alarm - env.run.seconds;
        }
        alive := alive - {env.pid};
      }
    }

    /** Runs `ps --no-headers -o pid --ppid <ppid>` and collects its stdout. */
    method Ps(ppid: int) returns (out: string)
      modifies this
      ensures out == PsOutputFor(env, ppid)
      ensures trace == old(trace) + [Spawn(PsCommand(ppid))]
      ensures alarm == old(alarm) && alive == old(alive)
    {
      out := PsOutputFor(env, ppid);
      trace := trace + [Spawn(PsCommand(ppid))];
    }

    /** `os.kill(pid, sig)`; `ok` false when it raises `OSError` (no such process). */
    method Kill(pid: int, sig: int) returns (ok: bool)
      modifies this
      ensures ok == (pid in old(alive))
      ensures alive == old(alive) - {pid}
      ensures trace == old(trace) + [Signal(pid, sig)]
      ensures alarm == old(alarm)
    {
      ok := pid in alive;
      alive := alive - {pid};
      trace := trace + [Signal(pid, sig)];
    }
  }

  /** `ChildRunCMD(pid)`: the direct children of `pid`, as `ps` lists them; `None` when `int()` raises. */
  method ChildRunCMD(k: Kernel, pid: int) returns (r: Option<seq<int>>)
    modifies k
    ensures r == ParsePids(PsOutputFor(k.env, pid))
    ensures k.trace == old(k.trace) + [Spawn(PsCommand(pid))]
    ensures k.alarm == old(k.alarm) && k.alive == old(k.alive)
  {
    var stdout := k.Ps(pid);
    r := ParsePids(stdout);
  }

  /**
   * `RunCMD(cmd, timeout=0)`. Spawn; arm the alarm when `timeout > 0`; wait;
   * on completion cancel the alarm and return the output without its last
   * character; on timeout build `[p.pid] + ChildRunCMD(p.pid)` and signal
   * its elements in a loop that returns `(-1, None)` after the first one.
   */
  method RunCMD(k: Kernel, cmd: string, timeout: int := 0) returns (r: Outcome)
    requires k.alarm == 0
    requires Returns(k.env, timeout)
    modifies k
    ensures r == RunOutcome(k.env, timeout)
    ensures k.trace == old(k.trace) + Syscalls(cmd, k.env, timeout)
    ensures k.alive == AliveAfter(k.env, timeout, old(k.alive))
    ensures k.alarm == 0
  {
    ghost var start := k.trace;
    var spawned, pid := k.Popen(cmd);
    if !spawned {
      return Returned(-2, None);
    }

    if timeout > 0 {
      k.InstallHandler();
      k.SetAlarm(timeout);
    }

    var alarmed, returncode, out := k.Communicate();
    assert k.trace == start + Waited(cmd, k.env, timeout) + (if alarmed then [Sigalrm] else []);
    if !alarmed {
      var stdout := DropLast(out);
      if timeout > 0 {
        k.SetAlarm(0);
      }
      CompletedCase(cmd, k.env, timeout, old(k.alive));
      return Returned(returncode, Some(stdout));
    }

    TimedOutCase(cmd, k.env, timeout, old(k.alive));
    r := OnAlarm(k, pid);
  }

  lemma CompletedCase(cmd: string, env: Env, timeout: int, alive: set<int>)
    requires Returns(env, timeout) && !env.spawnFails && StepOf(env, timeout).Completed?
    ensures RunOutcome(env, timeout) == Returned(env.run.rc, Some(DropLast(env.run.output)))
    ensures Syscalls(cmd, env, timeout) == Waited(cmd, env, timeout) + (if timeout > 0 then [Alarm(0)] else [])
    ensures AliveAfter(env, timeout, alive) == alive - {env.pid}
  {
  }

  lemma TimedOutCase(cmd: string, env: Env, timeout: int, alive: set<int>)
    requires Returns(env, timeout) && !env.spawnFails && StepOf(env, timeout).TimedOut?
    ensures RunOutcome(env, timeout) == if KillList(env).None? then ValueErrorRaised else Returned(-1, None)
    ensures Syscalls(cmd, env, timeout) == Waited(cmd, env, timeout) + [Sigalrm] + [Spawn(PsCommand(env.pid))]
                                           + (if KillList(env).None? then [] else [Signal(env.pid, SIGKILL)])
    ensures AliveAfter(env, timeout, alive) == if KillList(env).None? then alive + {env.pid} else alive - {env.pid}
  {
  }

  /**
   * The `except Alarm:` branch of `RunCMD`: build `[p.pid] + ChildRunCMD(p.pid)`
   * and signal its elements in a loop that returns `(-1, None)` after the
   * first one. A `ValueError` from `ChildRunCMD` passes through.
   */
  method OnAlarm(k: Kernel, pid: int) returns (r: Outcome)
    requires pid == k.env.pid
    modifies k
    ensures r == if KillList(k.env).None? then ValueErrorRaised else Returned(-1, None)
    ensures k.trace == old(k.trace) + [Spawn(PsCommand(pid))]
                       + (if KillList(k.env).None? then [] else [Signal(pid, SIGKILL)])
    ensures k.alive == if KillList(k.env).None? then old(k.alive) else old(k.alive) - {pid}
    ensures k.alarm == old(k.alarm)
  {
    var pids := [pid];
    var children := ChildRunCMD(k, pid);
    if children.None? {
      return ValueErrorRaised;
    }
    pids := pids + children.value;

    // `for pid in pids:` with the `return (-1, None)` inside its body: the
    // loop ends after its first iteration, which `returned` records.
    ghost var before, alive := k.trace, k.alive;
    var i, returned := 0, false;
    while i < |pids| && !returned
      invariant 0 <= i <= 1 && i <= |pids| && returned == (i == 1)
      invariant k.trace == before + (if returned then [Signal(pids[0], SIGKILL)] else [])
      invariant k.alive == alive - (if returned then {pids[0]} else {})
      invariant k.alarm == old(k.alarm)
    {
      var _ := k.Kill(pids[i], SIGKILL);  // an OSError is ignored
      i, returned := i + 1, true;
    }
    assert returned;
    return Returned(-1, None);
  }
}
