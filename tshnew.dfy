/**
 * The later draft of the shell (tshnew.c): builtin_cmd, do_bgfg, waitfg, the
 * three signal handlers and the parent side of eval.
 *
 * Each operation is a function on the job table, giving the table afterwards,
 * the output and kill calls in order, and how it ends; the methods are the C
 * routines over the shell's state and are proved to do what the functions say.
 */
module TshNew {
  import opened Wrappers
  import opened CString
  import opened Jobs
  import opened JobControl
  import Parse

  // ---------------------------------------------------------------------------
  // sigchld_handler

  /**
   * One pass of sigchld_handler's loop. A child that is not in the table is
   * ignored; a stopped one becomes ST and is reported; one killed by a signal
   * is reported and deleted; one that exited is deleted silently.
   */
  function ReapOneOf(t: JobTable, c: Child): Run {
    match JobIndexByPid(t.slots, c.pid)
    case None => Nothing(t)
    case Some(i) =>
      match c.status
      case Stopped =>
        var t1 := SetState(t, i, St);
        Run(t1, [Out(StopNotice(Pid2JidOf(t1.slots, c.pid), c.pid))], Returned)
      case Signaled =>
        Run(AfterDelete(t, c.pid), [Out(KillNotice(Pid2JidOf(t.slots, c.pid), c.pid))], Returned)
      case Exited =>
        Run(AfterDelete(t, c.pid), [], Returned)
  }

  /** The whole waitpid loop over the children it collects, in order. */
  function ReapOf(t: JobTable, cs: seq<Child>): (r: Run)
    ensures r.outcome == Returned
    decreases |cs|
  {
    if |cs| == 0 then Nothing(t)
    else
      var r := ReapOneOf(t, cs[0]);
      After(r.out, ReapOf(r.table, cs[1..]))
  }

  /**
   * Reaping one child: the report names the job's own jid; a child that is
   * not in the table changes nothing; and afterwards the child's pid is no
   * longer the foreground pid, so a waitfg on it returns.
   */
  lemma ReapOneEffect(t: JobTable, c: Child)
    requires DistinctPids(t.slots) && c.pid >= 1
    ensures var r := ReapOneOf(t, c);
      FgPidOf(r.table.slots) != c.pid &&
      (JobIndexByPid(t.slots, c.pid).None? ==> r == Nothing(t)) &&
      (JobIndexByPid(t.slots, c.pid).Some? ==>
        var i := JobIndexByPid(t.slots, c.pid).value;
        r.out == match c.status
          case Stopped => [Out(StopNotice(t.slots[i].jid, c.pid))]
          case Signaled => [Out(KillNotice(t.slots[i].jid, c.pid))]
          case Exited => [])
  {
    FindFirst(t.slots, ByPid(c.pid), 0);
    var r := ReapOneOf(t, c);
    match JobIndexByPid(t.slots, c.pid)
    case None =>
      FindFirst(t.slots, InState(Fg), 0);
    case Some(i) =>
      if c.status == Stopped {
        FindSameKeys(t.slots, r.table.slots, ByPid(c.pid), 0);
      } else {
        DeleteJobTwice(t, c.pid);
      }
      FindFirst(r.table.slots, InState(Fg), 0);
      FindFirst(r.table.slots, ByPid(c.pid), 0);
      if FgPidOf(r.table.slots) == c.pid {
        var k := Find(r.table.slots, InState(Fg), 0).value;
        FindSome(r.table.slots, ByPid(c.pid), k);
      }
  }

  /** Reaping keeps the table coherent: it never makes a job the foreground job, nor adds a pid. */
  lemma {:induction false} ReapCoherent(t: JobTable, cs: seq<Child>, p: int)
    requires Coherent(t, p)
    ensures Coherent(ReapOf(t, cs).table, p)
    decreases |cs|
  {
    if |cs| > 0 {
      var c := cs[0];
      FindFirst(t.slots, ByPid(c.pid), 0);
      match JobIndexByPid(t.slots, c.pid) {
        case None =>
        case Some(i) =>
          if c.status == Stopped {
            SetStateCoherent(t, i, St, p);
          } else {
            DeleteCoherent(t, c.pid, p);
          }
      }
      ReapCoherent(ReapOneOf(t, c).table, cs[1..], p);
    }
  }

  // ---------------------------------------------------------------------------
  // Handlers and waitfg

  /** One handler run. A NULL job for the foreground pid makes unix_error exit with status 1. */
  function DeliverOf(t: JobTable, d: Delivery): Run {
    match d
    case Chld(cs) => ReapOf(t, cs)
    case Intr => ForwardOf(t, SIGINT, Exit(1))
    case Tstp => ForwardOf(t, SIGTSTP, Exit(1))
  }

  /** No handler run of this draft changes the state of a job other than to ST, so coherence is kept. */
  lemma DeliverCoherent(t: JobTable, d: Delivery, p: int)
    requires Coherent(t, p)
    ensures Coherent(DeliverOf(t, d).table, p)
    ensures DeliverOf(t, d).outcome == Returned
  {
    match d
    case Chld(cs) => ReapCoherent(t, cs, p);
    case Intr => ForwardEffect(t, SIGINT, Exit(1));
    case Tstp => ForwardEffect(t, SIGTSTP, Exit(1));
  }

  /**
   * waitfg: while `pid` is the foreground pid the shell sleeps, and one
   * handler runs per sleep. It returns only once fgpid() differs from `pid`;
   * if the deliveries run out first it is still blocked.
   */
  function WaitFgOf(t: JobTable, pid: int, ds: seq<Delivery>): (r: Run)
    ensures r.outcome == Returned ==> FgPidOf(r.table.slots) != pid
    ensures r.outcome == Blocked ==> FgPidOf(r.table.slots) == pid
    decreases |ds|
  {
    if FgPidOf(t.slots) != pid then Nothing(t)
    else if |ds| == 0 then Run(t, [], Blocked)
    else
      var r := DeliverOf(t, ds[0]);
      if r.outcome != Returned then r
      else After(r.out, WaitFgOf(r.table, pid, ds[1..]))
  }

  /** One sleep of waitfg, for the loop that runs it: the k-th delivery, then the wait over the rest. */
  lemma WaitFgStep(t: JobTable, pid: int, ds: seq<Delivery>, k: nat)
    requires k < |ds| && FgPidOf(t.slots) == pid
    ensures var r := DeliverOf(t, ds[k]);
      WaitFgOf(t, pid, ds[k..]) ==
        if r.outcome != Returned then r else After(r.out, WaitFgOf(r.table, pid, ds[k + 1..]))
  {
    assert ds[k..][1..] == ds[k + 1..];
  }

  /** Waiting keeps the table coherent and, in a coherent table, never ends the shell. */
  lemma {:induction false} WaitFgCoherent(t: JobTable, pid: int, ds: seq<Delivery>, p: int)
    requires Coherent(t, p)
    ensures Coherent(WaitFgOf(t, pid, ds).table, p)
    ensures WaitFgOf(t, pid, ds).outcome in {Returned, Blocked}
    decreases |ds|
  {
    if FgPidOf(t.slots) == pid && |ds| > 0 {
      DeliverCoherent(t, ds[0], p);
      WaitFgCoherent(DeliverOf(t, ds[0]).table, pid, ds[1..], p);
    }
  }

  // ---------------------------------------------------------------------------
  // do_bgfg and builtin_cmd

  /**
   * do_bgfg: a command other than bg or fg does nothing; a target that does
   * not resolve prints one error line; bg makes the job BG, acknowledges it
   * and continues its process group; fg makes it FG, continues its process
   * group and waits for it.
   */
  function DoBgFgOf(t: JobTable, argv: seq<string>, ds: seq<Delivery>): Run
    requires |argv| >= 1
  {
    if argv[0] != "bg" && argv[0] != "fg" then Nothing(t)
    else
      match Resolve(t.slots, argv)
      case Found(i) => if argv[0] == "bg" then BgOf(t, i) else FgOf(t, i, ds)
      case _ => Run(t, [Out(ErrorText(argv, Resolve(t.slots, argv)))], Returned)
  }

  /** bg on the job in slot i: state BG, "[jid] (pid) cmdline", then SIGCONT to its process group. */
  function BgOf(t: JobTable, i: nat): Run
    requires i < |t.slots|
  {
    var pid := t.slots[i].pid;
    var t1 := SetState(t, i, Bg);
    Run(t1, [Out(Ack(Pid2JidOf(t1.slots, pid), pid, t.slots[i].cmdline)), Kill(-pid, SIGCONT)], Returned)
  }

  /** fg on the job in slot i: state FG, SIGCONT to its process group, then wait for it. */
  function FgOf(t: JobTable, i: nat, ds: seq<Delivery>): Run
    requires i < |t.slots|
  {
    var pid := t.slots[i].pid;
    After([Kill(-pid, SIGCONT)], WaitFgOf(SetState(t, i, Fg), pid, ds))
  }

  /** When bg or fg cannot resolve its target, the table is unchanged and exactly one error line is printed. */
  lemma BgFgError(t: JobTable, argv: seq<string>, ds: seq<Delivery>)
    requires |argv| >= 1 && (argv[0] == "bg" || argv[0] == "fg") && !Resolve(t.slots, argv).Found?
    ensures var r := DoBgFgOf(t, argv, ds);
      r.table == t && r.outcome == Returned && |r.out| == 1 &&
      r.out[0] == Out(
        if |argv| < 2 then argv[0] + " command requires PID or %jobid argument\n"
        else if IsJobRef(argv[1]) then argv[1] + ": No such job\n"
        else if |argv[1]| > 0 && IsDigit(argv[1][0]) then "(" + Decimal(Atoi(argv[1])) + "): No such process\n"
        else argv[0] + ": argument must be a PID or %jobid\n")
  {
    if |argv| >= 2 {
      ResolveFound(t.slots, argv);
    }
  }

  /**
   * bg on a job: only that job's state changes, to BG; then "[jid] (pid)
   * cmdline" is printed and SIGCONT goes to the job's process group.
   */
  lemma BgEffect(t: JobTable, argv: seq<string>, ds: seq<Delivery>)
    requires DistinctPids(t.slots) && ValidTable(t)
    requires |argv| >= 1 && argv[0] == "bg" && Resolve(t.slots, argv).Found?
    ensures var i := Resolve(t.slots, argv).index;
      var j := t.slots[i];
      var r := DoBgFgOf(t, argv, ds);
      r.table == JobTable(t.slots[i := j.(state := Bg)], t.nextjid) &&
      r.out == [Out(Ack(j.jid, j.pid, j.cmdline)), Kill(-j.pid, SIGCONT)] &&
      r.outcome == Returned
  {
    var i := Resolve(t.slots, argv).index;
    var t1 := SetState(t, i, Bg);
    ResolveFound(t.slots, argv);
    FindSome(t1.slots, ByPid(t.slots[i].pid), i);
    FindFirst(t1.slots, ByPid(t.slots[i].pid), 0);
  }

  /**
   * fg on a job when no job is in the foreground: right after the state
   * change that job is the only foreground job; SIGCONT goes to its process
   * group before the wait; and when fg returns the job is no longer in the
   * foreground.
   */
  lemma FgEffect(t: JobTable, argv: seq<string>, ds: seq<Delivery>)
    requires ValidTable(t) && FgPidOf(t.slots) == 0
    requires |argv| >= 1 && argv[0] == "fg" && Resolve(t.slots, argv).Found?
    ensures var i := Resolve(t.slots, argv).index;
      var pid := t.slots[i].pid;
      var r := DoBgFgOf(t, argv, ds);
      CountState(SetState(t, i, Fg).slots, Fg) == 1 &&
      |r.out| >= 1 && r.out[0] == Kill(-pid, SIGCONT) &&
      (r.outcome == Returned ==> FgPidOf(r.table.slots) != pid)
  {
    var i := Resolve(t.slots, argv).index;
    ResolveFound(t.slots, argv);
    SetFgUnique(t, i);
  }

  /** builtin_cmd: quit exits with status 0, bg and fg run do_bgfg, jobs lists the table; None for anything else. */
  function BuiltinOf(t: JobTable, argv: seq<string>, ds: seq<Delivery>): Option<Run>
    requires |argv| >= 1
  {
    if argv[0] == "quit" then Some(Run(t, [], Exit(0)))
    else if argv[0] == "bg" then Some(DoBgFgOf(t, argv, ds))
    else if argv[0] == "fg" then Some(DoBgFgOf(t, argv, ds))
    else if argv[0] == "jobs" then Some(Run(t, ListingFrom(t.slots, 0), Returned))
    else None
  }

  // ---------------------------------------------------------------------------
  // eval, the parent's side

  /**
   * After fork: register the child `pid` (exit with status 1 if addjob
   * fails); a background job is acknowledged, a foreground one waited for.
   */
  function LaunchOf(t: JobTable, cmdline: string, bg: bool, pid: int, ds: seq<Delivery>): Run {
    if !AddSucceeds(t, pid) then Run(t, AddJobOutput(t, pid), Exit(1))
    else
      var t1 := AfterAdd(t, pid, if bg then Bg else Fg, cmdline);
      if bg then
        match JobIndexByPid(t1.slots, pid)
        case None => Run(t1, [], Fault)
        case Some(i) => Run(t1, [Out(Ack(t1.slots[i].jid, pid, cmdline))], Returned)
      else WaitFgOf(t1, pid, ds)
  }

  /**
   * Launching a child whose pid is not in the table: when addjob fails the
   * table is unchanged and the shell exits with status 1; a background job
   * is acknowledged with the job id addjob gave it, nextjid; a foreground job
   * is the only foreground job while the shell waits for it.
   */
  lemma LaunchEffect(t: JobTable, cmdline: string, bg: bool, pid: int, ds: seq<Delivery>)
    requires ValidTable(t) && JobIndexByPid(t.slots, pid).None?
    ensures var r := LaunchOf(t, cmdline, bg, pid, ds);
      (!AddSucceeds(t, pid) ==> r.table == t && r.outcome == Exit(1)) &&
      (AddSucceeds(t, pid) && bg ==>
        r == Run(AfterAdd(t, pid, Bg, cmdline), [Out(Ack(t.nextjid, pid, cmdline))], Returned)) &&
      (AddSucceeds(t, pid) && !bg && FgPidOf(t.slots) == 0 ==>
        CountState(AfterAdd(t, pid, Fg, cmdline).slots, Fg) == 1 &&
        (r.outcome == Returned ==> FgPidOf(r.table.slots) != pid))
  {
    if AddSucceeds(t, pid) {
      AddThenLookup(t, pid, if bg then Bg else Fg, cmdline);
      if !bg && FgPidOf(t.slots) == 0 {
        AddFgUnique(t, pid, cmdline);
      }
    }
  }

  /** eval: a blank line does nothing; a builtin runs in the shell; anything else is launched as child `pid`. */
  function EvalOf(t: JobTable, cmdline: string, pid: int, ds: seq<Delivery>): Run
    requires |cmdline| >= 1
  {
    var (argv, bg) := Parse.ParseResult(cmdline);
    if |argv| == 0 then Nothing(t)
    else
      match BuiltinOf(t, argv, ds)
      case Some(r) => r
      case None => LaunchOf(t, cmdline, bg, pid, ds)
  }

  /**
   * bg and fg, started with no job in the foreground and distinct pids, leave
   * no job in the foreground and pids distinct when they return: fg returns
   * only once its job has left the foreground.
   */
  lemma BgFgNoForeground(t: JobTable, argv: seq<string>, ds: seq<Delivery>)
    requires |argv| >= 1 && (argv[0] == "bg" || argv[0] == "fg")
    requires Coherent(t, 0) && FgPidOf(t.slots) == 0
    ensures var r := DoBgFgOf(t, argv, ds);
      r.outcome == Returned ==> Coherent(r.table, 0) && FgPidOf(r.table.slots) == 0
  {
    var r := DoBgFgOf(t, argv, ds);
    FindFirst(t.slots, InState(Fg), 0);
    match Resolve(t.slots, argv)
    case Found(i) =>
      if |argv| >= 2 {
        ResolveFound(t.slots, argv);
      }
      var q := t.slots[i].pid;
      if argv[0] == "bg" {
        SetStateCoherent(t, i, Bg, 0);
        FindFirst(r.table.slots, InState(Fg), 0);
      } else if r.outcome == Returned {
        assert Coherent(t, q);
        SetStateCoherent(t, i, Fg, q);
        WaitFgCoherent(SetState(t, i, Fg), q, ds, q);
        FgOnlyReleased(r.table.slots, q);
      }
    case _ =>
  }

  /**
   * Launching a child whose pid is not yet in the table, with no job in the
   * foreground: a background child is never in the foreground, and a
   * foreground child's wait returns only when it has left the foreground.
   */
  lemma LaunchNoForeground(t: JobTable, cmdline: string, bg: bool, pid: int, ds: seq<Delivery>)
    requires Coherent(t, 0) && FgPidOf(t.slots) == 0 && JobIndexByPid(t.slots, pid).None?
    ensures var r := LaunchOf(t, cmdline, bg, pid, ds);
      r.outcome == Returned ==> Coherent(r.table, 0) && FgPidOf(r.table.slots) == 0
  {
    var r := LaunchOf(t, cmdline, bg, pid, ds);
    FindFirst(t.slots, InState(Fg), 0);
    if AddSucceeds(t, pid) && r.outcome == Returned {
      if bg {
        AddCoherent(t, pid, Bg, cmdline, 0);
        FindFirst(r.table.slots, InState(Fg), 0);
      } else {
        assert Coherent(t, pid);
        AddCoherent(t, pid, Fg, cmdline, pid);
        WaitFgCoherent(AfterAdd(t, pid, Fg, cmdline), pid, ds, pid);
        FgOnlyReleased(r.table.slots, pid);
      }
    }
  }

  /**
   * "At most one job is in the foreground", as eval keeps it: if no job is in
   * the foreground when a command line is evaluated, pids are distinct and the
   * new child's pid is not yet in the table, then when eval returns no job is
   * in the foreground and pids are still distinct.
   */
  lemma EvalNoForeground(t: JobTable, cmdline: string, pid: int, ds: seq<Delivery>)
    requires |cmdline| >= 1
    requires Coherent(t, 0) && FgPidOf(t.slots) == 0 && JobIndexByPid(t.slots, pid).None?
    ensures var r := EvalOf(t, cmdline, pid, ds);
      r.outcome == Returned ==> Coherent(r.table, 0) && FgPidOf(r.table.slots) == 0
  {
    var (argv, bg) := Parse.ParseResult(cmdline);
    if |argv| > 0 {
      if argv[0] == "bg" || argv[0] == "fg" {
        BgFgNoForeground(t, argv, ds);
      } else {
        LaunchNoForeground(t, cmdline, bg, pid, ds);
      }
    }
  }

  // ---------------------------------------------------------------------------
  // The routines

  /** One pass of sigchld_handler's loop, for a child that waitpid returned. */
  method ReapOne(sh: Shell, c: Child)
    requires sh.Valid()
    modifies sh, sh.jobs
    ensures sh.Valid() && sh.jobs == old(sh.jobs)
    ensures Did(sh, old(sh.trace), ReapOneOf(old(sh.View()), c), Returned)
  {
    var job := sh.GetJobPid(c.pid);
    if c.status == Stopped && job.Some? {
      SetStateValid(sh.View(), job.value, St);
      sh.jobs[job.value] := sh.jobs[job.value].(state := St);
      var jid := sh.Pid2Jid(sh.jobs[job.value].pid);
      sh.trace := sh.trace + [Out(StopNotice(jid, sh.jobs[job.value].pid))];
    } else if c.status == Signaled && job.Some? {
      var jid := sh.Pid2Jid(sh.jobs[job.value].pid);
      sh.trace := sh.trace + [Out(KillNotice(jid, sh.jobs[job.value].pid))];
      var _ := sh.DeleteJob(c.pid);
    } else if c.status == Exited && job.Some? {
      var _ := sh.DeleteJob(c.pid);
    }
  }

  /** sigchld_handler: handles every child the waitpid loop collects, in order. */
  method SigchldHandler(sh: Shell, reaped: seq<Child>)
    requires sh.Valid()
    modifies sh, sh.jobs
    ensures sh.Valid() && sh.jobs == old(sh.jobs)
    ensures Did(sh, old(sh.trace), ReapOf(old(sh.View()), reaped), Returned)
  {
    ghost var out: seq<Effect> := [];
    for k := 0 to |reaped|
      invariant sh.Valid() && sh.jobs == old(sh.jobs)
      invariant sh.trace == old(sh.trace) + out
      invariant ReapOf(old(sh.View()), reaped) == After(out, ReapOf(sh.View(), reaped[k..]))
    {
      ghost var r := ReapOneOf(sh.View(), reaped[k]);
      assert reaped[k..][1..] == reaped[k + 1..];
      AfterAfter(out, r.out, ReapOf(r.table, reaped[k + 1..]));
      AfterAfter(old(sh.trace), out, r);
      ReapOne(sh, reaped[k]);
      out := out + r.out;
    }
  }

  /** One handler run while the shell sleeps. */
  method Deliver(sh: Shell, d: Delivery) returns (outcome: Outcome)
    requires sh.Valid()
    modifies sh, sh.jobs
    ensures sh.Valid() && sh.jobs == old(sh.jobs)
    ensures Did(sh, old(sh.trace), DeliverOf(old(sh.View()), d), outcome)
  {
    match d {
      case Chld(cs) =>
        SigchldHandler(sh, cs);
        outcome := Returned;
      case Intr =>
        outcome := Forward(sh, SIGINT, Exit(1));
      case Tstp =>
        outcome := Forward(sh, SIGTSTP, Exit(1));
    }
  }

  /** waitfg: checks fgpid() and sleeps, one handler run per sleep, until fgpid() is not `pid`. */
  method WaitFg(sh: Shell, pid: int, ds: seq<Delivery>) returns (outcome: Outcome)
    requires sh.Valid()
    modifies sh, sh.jobs
    ensures sh.Valid() && sh.jobs == old(sh.jobs)
    ensures Did(sh, old(sh.trace), WaitFgOf(old(sh.View()), pid, ds), outcome)
  {
    var k := 0;
    ghost var out: seq<Effect> := [];
    while true
      invariant k <= |ds|
      invariant sh.Valid() && sh.jobs == old(sh.jobs)
      invariant sh.trace == old(sh.trace) + out
      invariant WaitFgOf(old(sh.View()), pid, ds) == After(out, WaitFgOf(sh.View(), pid, ds[k..]))
      decreases |ds| - k
    {
      var fg := sh.FgPid();
      if fg != pid {
        return Returned;
      }
      if k == |ds| {
        return Blocked;
      }
      ghost var r := DeliverOf(sh.View(), ds[k]);
      WaitFgStep(sh.View(), pid, ds, k);
      AfterAfter(old(sh.trace), out, Run(r.table, r.out, Returned));
      AfterAfter(out, r.out, WaitFgOf(r.table, pid, ds[k + 1..]));
      outcome := Deliver(sh, ds[k]);
      if outcome != Returned {
        return;
      }
      out := out + r.out;
      k := k + 1;
    }
  }

  /** do_bgfg */
  method DoBgFg(sh: Shell, argv: seq<string>, ds: seq<Delivery>) returns (outcome: Outcome)
    requires sh.Valid() && |argv| >= 1
    modifies sh, sh.jobs
    ensures sh.Valid() && sh.jobs == old(sh.jobs)
    ensures Did(sh, old(sh.trace), DoBgFgOf(old(sh.View()), argv, ds), outcome)
  {
    if argv[0] != "bg" && argv[0] != "fg" {
      return Returned;
    }
    var target := ResolveArg(sh, argv);
    if |argv| >= 2 {
      ResolveFound(sh.jobs[..], argv);
    }
    if !target.Found? {
      sh.trace := sh.trace + [Out(ErrorText(argv, target))];
      return Returned;
    }
    if argv[0] == "bg" {
      Background(sh, target.index);
      return Returned;
    } else {
      outcome := Foreground(sh, target.index, ds);
    }
  }

  /** The bg branch of do_bgfg. */
  method Background(sh: Shell, i: nat)
    requires sh.Valid() && i < MAXJOBS && sh.jobs[i].pid != 0
    modifies sh, sh.jobs
    ensures sh.Valid() && sh.jobs == old(sh.jobs)
    ensures Did(sh, old(sh.trace), BgOf(old(sh.View()), i), Returned)
  {
    SetStateValid(sh.View(), i, Bg);
    sh.jobs[i] := sh.jobs[i].(state := Bg);
    var jid := sh.Pid2Jid(sh.jobs[i].pid);
    sh.trace := sh.trace + [Out(Ack(jid, sh.jobs[i].pid, sh.jobs[i].cmdline)), Kill(-sh.jobs[i].pid, SIGCONT)];
  }

  /** The fg branch of do_bgfg. */
  method Foreground(sh: Shell, i: nat, ds: seq<Delivery>) returns (outcome: Outcome)
    requires sh.Valid() && i < MAXJOBS && sh.jobs[i].pid != 0
    modifies sh, sh.jobs
    ensures sh.Valid() && sh.jobs == old(sh.jobs)
    ensures Did(sh, old(sh.trace), FgOf(old(sh.View()), i, ds), outcome)
  {
    SetStateValid(sh.View(), i, Fg);
    sh.jobs[i] := sh.jobs[i].(state := Fg);
    var pid := sh.jobs[i].pid;
    ghost var w := WaitFgOf(sh.View(), pid, ds);
    AfterAfter(old(sh.trace), [Kill(-pid, SIGCONT)], w);
    sh.trace := sh.trace + [Kill(-pid, SIGCONT)];
    outcome := WaitFg(sh, pid, ds);
  }

  /** builtin_cmd: returns whether argv names a builtin, and how running it ended. */
  method BuiltinCmd(sh: Shell, argv: seq<string>, ds: seq<Delivery>) returns (builtin: bool, outcome: Outcome)
    requires sh.Valid() && |argv| >= 1
    modifies sh, sh.jobs
    ensures sh.Valid() && sh.jobs == old(sh.jobs)
    ensures builtin == BuiltinOf(old(sh.View()), argv, ds).Some?
    ensures builtin ==> Did(sh, old(sh.trace), BuiltinOf(old(sh.View()), argv, ds).value, outcome)
    ensures !builtin ==> sh.View() == old(sh.View()) && sh.trace == old(sh.trace)
  {
    if argv[0] == "quit" {
      return true, Exit(0);
    } else if argv[0] == "bg" {
      outcome := DoBgFg(sh, argv, ds);
      return true, outcome;
    } else if argv[0] == "fg" {
      outcome := DoBgFg(sh, argv, ds);
      return true, outcome;
    } else if argv[0] == "jobs" {
      sh.ListJobs();
      return true, Returned;
    }
    return false, Returned;
  }

  /** eval, with `pid` the value fork returned to the shell. */
  method Eval(sh: Shell, cmdline: string, pid: int, ds: seq<Delivery>) returns (outcome: Outcome)
    requires sh.Valid() && 1 <= |cmdline| < MAXLINE && Parse.IsCString(cmdline)
    requires |Parse.ArgsFrom(Parse.Buffer(cmdline), 0)| < MAXARGS
    modifies sh, sh.jobs
    ensures sh.Valid() && sh.jobs == old(sh.jobs)
    ensures Did(sh, old(sh.trace), EvalOf(old(sh.View()), cmdline, pid, ds), outcome)
  {
    var argv, bg := Parse.ParseLine(cmdline);
    if |argv| == 0 {
      return Returned;
    }
    var builtin;
    builtin, outcome := BuiltinCmd(sh, argv, ds);
    if builtin {
      return;
    }
    outcome := Launch(sh, cmdline, bg, pid, ds);
  }

  /** The parent's side of eval after fork returned `pid` for a command that is not a builtin. */
  method Launch(sh: Shell, cmdline: string, bg: bool, pid: int, ds: seq<Delivery>) returns (outcome: Outcome)
    requires sh.Valid()
    modifies sh, sh.jobs
    ensures sh.Valid() && sh.jobs == old(sh.jobs)
    ensures Did(sh, old(sh.trace), LaunchOf(old(sh.View()), cmdline, bg, pid, ds), outcome)
  {
    var ok := sh.AddJob(pid, if bg then Bg else Fg, cmdline);
    if !ok {
      return Exit(1);
    }
    assert sh.trace == old(sh.trace);
    if bg {
      var job := sh.GetJobPid(pid);
      if job.None? {
        return Fault;
      }
      sh.trace := sh.trace + [Out(Ack(sh.jobs[job.value].jid, pid, cmdline))];
      return Returned;
    } else {
      outcome := WaitFg(sh, pid, ds);
    }
  }
}
