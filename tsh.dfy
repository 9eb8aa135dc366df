/**
 * The earlier draft of the shell (tsh.c): builtin_cmd, do_bgfg, waitfg, the
 * three signal handlers and the parent side of eval.
 *
 * It differs from the later draft in four places: the SIGCHLD handler
 * dereferences the job of a stopped or killed child without checking for
 * NULL; ctrl-C dereferences the foreground job without checking; ctrl-Z
 * marks the foreground job ST itself; and bg continues only the job's
 * process while fg continues the job only after waiting for it. A NULL
 * dereference ends a run with outcome Fault.
 */
module Tsh {
  import opened Wrappers
  import opened CString
  import opened Jobs
  import opened JobControl
  import Parse
  import TshNew

  // ---------------------------------------------------------------------------
  // sigchld_handler

  /**
   * One pass of sigchld_handler's loop. A stopped child's job becomes ST and
   * is reported; a killed one is reported and deleted; either faults when the
   * child is not in the table. A child that exited is deleted, which does
   * nothing when it is not in the table.
   */
  function ReapOneOf(t: JobTable, c: Child): Run {
    match c.status
    case Stopped =>
      (match JobIndexByPid(t.slots, c.pid)
       case None => Run(t, [], Fault)
       case Some(i) =>
         var t1 := SetState(t, i, St);
         Run(t1, [Out(StopNotice(Pid2JidOf(t1.slots, c.pid), c.pid))], Returned))
    case Signaled =>
      (match JobIndexByPid(t.slots, c.pid)
       case None => Run(t, [], Fault)
       case Some(i) => Run(AfterDelete(t, c.pid), [Out(KillNotice(Pid2JidOf(t.slots, c.pid), c.pid))], Returned))
    case Exited => Run(AfterDelete(t, c.pid), [], Returned)
  }

  /** The waitpid loop over the children it collects, in order, up to the first fault. */
  function ReapOf(t: JobTable, cs: seq<Child>): (r: Run)
    ensures r.outcome in {Returned, Fault} && |r.table.slots| == |t.slots|
    decreases |cs|
  {
    if |cs| == 0 then Nothing(t)
    else
      var r := ReapOneOf(t, cs[0]);
      if r.outcome != Returned then r
      else After(r.out, ReapOf(r.table, cs[1..]))
  }

  /** The loop's k-th pass, then the rest. */
  lemma ReapStep(t: JobTable, cs: seq<Child>, k: nat)
    requires k < |cs|
    ensures var r := ReapOneOf(t, cs[k]);
      ReapOf(t, cs[k..]) == if r.outcome != Returned then r else After(r.out, ReapOf(r.table, cs[k + 1..]))
  {
    assert cs[k..][1..] == cs[k + 1..];
  }

  /**
   * The handler faults exactly when a stopped or killed child is not in the
   * table; otherwise it does what the later draft's handler does.
   */
  lemma ReapOneFault(t: JobTable, c: Child)
    ensures ReapOneOf(t, c).outcome == Fault <==>
      c.status != Exited && JobIndexByPid(t.slots, c.pid).None?
    ensures ReapOneOf(t, c).outcome != Fault ==> ReapOneOf(t, c) == TshNew.ReapOneOf(t, c)
  {
    if c.status == Exited && JobIndexByPid(t.slots, c.pid).None? {
      assert AfterDelete(t, c.pid) == t;
    }
  }

  /**
   * Reaping children whose pids are all in the table (each at most once, and
   * pids distinct) never faults, and keeps the table coherent.
   */
  lemma {:induction false} ReapKnown(t: JobTable, cs: seq<Child>, p: int)
    requires Coherent(t, p)
    requires forall k :: 0 <= k < |cs| ==> JobIndexByPid(t.slots, cs[k].pid).Some?
    requires forall k, l :: 0 <= k < l < |cs| ==> cs[k].pid != cs[l].pid
    ensures ReapOf(t, cs).outcome == Returned && Coherent(ReapOf(t, cs).table, p)
    decreases |cs|
  {
    if |cs| > 0 {
      var c := cs[0];
      var i := JobIndexByPid(t.slots, c.pid).value;
      FindFirst(t.slots, ByPid(c.pid), 0);
      var t1 := ReapOneOf(t, c).table;
      if c.status == Stopped {
        SetStateCoherent(t, i, St, p);
        forall k | 1 <= k < |cs|
          ensures JobIndexByPid(t1.slots, cs[k].pid).Some?
        {
          FindFirst(t.slots, ByPid(cs[k].pid), 0);
          FindSome(t1.slots, ByPid(cs[k].pid), JobIndexByPid(t.slots, cs[k].pid).value);
        }
      } else {
        DeleteCoherent(t, c.pid, p);
        forall k | 1 <= k < |cs|
          ensures JobIndexByPid(t1.slots, cs[k].pid).Some?
        {
          FindFirst(t.slots, ByPid(cs[k].pid), 0);
          var j := JobIndexByPid(t.slots, cs[k].pid).value;
          assert j != i;
          FindSome(t1.slots, ByPid(cs[k].pid), j);
        }
      }
      ReapKnown(t1, cs[1..], p);
    }
  }

  /** Reaping keeps the table coherent, whether or not it faults. */
  lemma {:induction false} ReapCoherent(t: JobTable, cs: seq<Child>, p: int)
    requires Coherent(t, p)
    ensures Coherent(ReapOf(t, cs).table, p)
    decreases |cs|
  {
    if |cs| > 0 {
      var c := cs[0];
      FindFirst(t.slots, ByPid(c.pid), 0);
      match JobIndexByPid(t.slots, c.pid) {
        case None =>
        case Some(i) =>
          if c.status == Stopped {
            SetStateCoherent(t, i, St, p);
          } else {
            DeleteCoherent(t, c.pid, p);
          }
      }
      if c.status == Exited {
        DeleteCoherent(t, c.pid, p);
      }
      ReapCoherent(ReapOneOf(t, c).table, cs[1..], p);
    }
  }

  // ---------------------------------------------------------------------------
  // Handlers and waitfg

  /**
   * sigtstp_handler: with no foreground job nothing happens; otherwise the
   * job getjobpid finds for the foreground pid is marked ST and SIGTSTP goes
   * to its process group. A NULL job faults.
   */
  function SigtstpOf(t: JobTable): Run {
    var p := FgPidOf(t.slots);
    if p == 0 then Nothing(t)
    else
      match JobIndexByPid(t.slots, p)
      case None => Run(t, [], Fault)
      case Some(i) => Run(SetState(t, i, St), [Kill(-t.slots[i].pid, SIGTSTP)], Returned)
  }

  /**
   * ctrl-Z on a coherent table never faults and leaves no job in the
   * foreground: the foreground job, if any, is marked ST and its process
   * group is sent SIGTSTP; nothing else changes.
   */
  lemma SigtstpEffect(t: JobTable, p: int)
    requires Coherent(t, p)
    ensures var r := SigtstpOf(t);
      r.outcome == Returned && Coherent(r.table, p) && FgPidOf(r.table.slots) == 0 &&
      (FgPidOf(t.slots) == 0 ==> r == Nothing(t)) &&
      (FgPidOf(t.slots) != 0 ==>
        r.out == [Kill(-FgPidOf(t.slots), SIGTSTP)] &&
        exists i :: 0 <= i < |t.slots| && t.slots[i].state == Fg &&
          r.table == JobTable(t.slots[i := t.slots[i].(state := St)], t.nextjid))
  {
    var q := FgPidOf(t.slots);
    FindFirst(t.slots, InState(Fg), 0);
    if q != 0 {
      FgPidZero(t);
      var i := JobIndexByPid(t.slots, q).value;
      FindFirst(t.slots, ByPid(q), 0);
      var k := Find(t.slots, InState(Fg), 0).value;
      assert t.slots[k].pid == q;
      assert k == i;
      SetStateCoherent(t, i, St, p);
      FindFirst(SigtstpOf(t).table.slots, InState(Fg), 0);
    }
  }

  /** One handler run; a NULL dereference in a handler faults. */
  function DeliverOf(t: JobTable, d: Delivery): (r: Run)
    ensures r.outcome in {Returned, Fault} && |r.table.slots| == |t.slots|
  {
    match d
    case Chld(cs) => ReapOf(t, cs)
    case Intr => ForwardOf(t, SIGINT, Fault)
    case Tstp => SigtstpOf(t)
  }

  /** waitfg: the same loop as in the later draft, over this draft's handlers. */
  function WaitFgOf(t: JobTable, pid: int, ds: seq<Delivery>): (r: Run)
    ensures r.outcome == Returned ==> FgPidOf(r.table.slots) != pid
    ensures r.outcome == Blocked ==> FgPidOf(r.table.slots) == pid
    ensures |r.table.slots| == |t.slots|
    decreases |ds|
  {
    if FgPidOf(t.slots) != pid then Nothing(t)
    else if |ds| == 0 then Run(t, [], Blocked)
    else
      var r := DeliverOf(t, ds[0]);
      if r.outcome != Returned then r
      else After(r.out, WaitFgOf(r.table, pid, ds[1..]))
  }

  /** Every handler run keeps the table coherent. */
  lemma DeliverCoherent(t: JobTable, d: Delivery, p: int)
    requires Coherent(t, p)
    ensures Coherent(DeliverOf(t, d).table, p)
  {
    match d
    case Chld(cs) => ReapCoherent(t, cs, p);
    case Intr => ForwardEffect(t, SIGINT, Fault);
    case Tstp => SigtstpEffect(t, p);
  }

  /** Waiting keeps the table coherent. */
  lemma {:induction false} WaitFgCoherent(t: JobTable, pid: int, ds: seq<Delivery>, p: int)
    requires Coherent(t, p)
    ensures Coherent(WaitFgOf(t, pid, ds).table, p)
    decreases |ds|
  {
    if FgPidOf(t.slots) == pid && |ds| > 0 {
      DeliverCoherent(t, ds[0], p);
      WaitFgCoherent(DeliverOf(t, ds[0]).table, pid, ds[1..], p);
    }
  }

  lemma WaitFgStep(t: JobTable, pid: int, ds: seq<Delivery>, k: nat)
    requires k < |ds| && FgPidOf(t.slots) == pid
    ensures var r := DeliverOf(t, ds[k]);
      WaitFgOf(t, pid, ds[k..]) ==
        if r.outcome != Returned then r else After(r.out, WaitFgOf(r.table, pid, ds[k + 1..]))
  {
    assert ds[k..][1..] == ds[k + 1..];
  }

  /**
   * ctrl-C and ctrl-Z during a wait for the foreground job `pid` of a coherent
   * table: ctrl-Z ends the wait with the job stopped, and ctrl-C leaves the
   * wait to the SIGCHLD that follows; neither faults.
   */
  lemma WaitFgKeys(t: JobTable, pid: int, ds: seq<Delivery>)
    requires Coherent(t, pid) && FgPidOf(t.slots) == pid && pid != 0 && |ds| >= 1
    ensures ds[0] == Tstp ==>
      WaitFgOf(t, pid, ds) == SigtstpOf(t) && WaitFgOf(t, pid, ds).outcome == Returned
    ensures ds[0] == Intr ==>
      DeliverOf(t, Intr) == Run(t, [Kill(-pid, SIGINT)], Returned)
  {
    SigtstpEffect(t, pid);
    ForwardEffect(t, SIGINT, Fault);
    FindFirst(t.slots, InState(Fg), 0);
    if ds[0] == Tstp {
      var r := SigtstpOf(t);
      assert WaitFgOf(r.table, pid, ds[1..]) == Nothing(r.table);
    }
  }

  // ---------------------------------------------------------------------------
  // do_bgfg and builtin_cmd

  /**
   * do_bgfg, which asserts that the command is bg or fg: a target that does
   * not resolve prints one error line; bg makes the job BG, continues its
   * process and acknowledges it; fg makes it FG, waits for it and then
   * continues whatever process its slot holds.
   */
  function DoBgFgOf(t: JobTable, argv: seq<string>, ds: seq<Delivery>): Run
    requires |argv| >= 1 && (argv[0] == "bg" || argv[0] == "fg")
  {
    match Resolve(t.slots, argv)
    case Found(i) => if argv[0] == "bg" then BgOf(t, i) else FgOf(t, i, ds)
    case _ => Run(t, [Out(ErrorText(argv, Resolve(t.slots, argv)))], Returned)
  }

  /** bg on the job in slot i: state BG, SIGCONT to the job's pid alone, then "[jid] (pid) cmdline". */
  function BgOf(t: JobTable, i: nat): Run
    requires i < |t.slots|
  {
    var pid := t.slots[i].pid;
    var t1 := SetState(t, i, Bg);
    Run(t1, [Kill(pid, SIGCONT), Out(Ack(Pid2JidOf(t1.slots, pid), pid, t.slots[i].cmdline))], Returned)
  }

  /**
   * fg on the job in slot i: state FG, wait for it, and only then SIGCONT to
   * the pid that slot i holds after the wait.
   */
  function FgOf(t: JobTable, i: nat, ds: seq<Delivery>): Run
    requires i < |t.slots|
  {
    var w := WaitFgOf(SetState(t, i, Fg), t.slots[i].pid, ds);
    if w.outcome != Returned then w
    else Run(w.table, w.out + [Kill(w.table.slots[i].pid, SIGCONT)], Returned)
  }

  /** The error lines are those of the later draft. */
  lemma BgFgError(t: JobTable, argv: seq<string>, ds: seq<Delivery>)
    requires |argv| >= 1 && (argv[0] == "bg" || argv[0] == "fg") && !Resolve(t.slots, argv).Found?
    ensures DoBgFgOf(t, argv, ds) == TshNew.DoBgFgOf(t, argv, ds)
    ensures |DoBgFgOf(t, argv, ds).out| == 1 && DoBgFgOf(t, argv, ds).table == t
  {
  }

  /**
   * bg on a job: only that job's state changes, to BG; SIGCONT goes to the
   * job's pid, not its process group, before the acknowledgment.
   */
  lemma BgEffect(t: JobTable, argv: seq<string>, ds: seq<Delivery>)
    requires DistinctPids(t.slots) && ValidTable(t)
    requires |argv| >= 1 && argv[0] == "bg" && Resolve(t.slots, argv).Found?
    ensures var i := Resolve(t.slots, argv).index;
      var j := t.slots[i];
      var r := DoBgFgOf(t, argv, ds);
      r.table == JobTable(t.slots[i := j.(state := Bg)], t.nextjid) &&
      r.out == [Kill(j.pid, SIGCONT), Out(Ack(j.jid, j.pid, j.cmdline))] &&
      r.outcome == Returned
  {
    var i := Resolve(t.slots, argv).index;
    var t1 := SetState(t, i, Bg);
    ResolveFound(t.slots, argv);
    FindSome(t1.slots, ByPid(t.slots[i].pid), i);
    FindFirst(t1.slots, ByPid(t.slots[i].pid), 0);
  }

  /**
   * fg on a stopped job, with no job in the foreground and no signal
   * arriving: the job is marked FG but nothing continues it, so the shell
   * stays blocked in waitfg and sends nothing at all.
   */
  lemma FgStoppedJobHangs(t: JobTable, argv: seq<string>)
    requires ValidTable(t) && FgPidOf(t.slots) == 0
    requires |argv| >= 1 && argv[0] == "fg" && Resolve(t.slots, argv).Found?
    ensures var i := Resolve(t.slots, argv).index;
      DoBgFgOf(t, argv, []) == Run(SetState(t, i, Fg), [], Blocked)
  {
    var i := Resolve(t.slots, argv).index;
    ResolveFound(t.slots, argv);
    SetFgUnique(t, i);
  }

  /**
   * fg on a job that exits during the wait: the SIGCHLD handler clears its
   * slot, and the SIGCONT that follows the wait goes to pid 0, that is, to
   * every process in the shell's own process group.
   */
  lemma FgAfterExitSignalsGroup(t: JobTable, argv: seq<string>)
    requires ValidTable(t) && DistinctPids(t.slots) && FgPidOf(t.slots) == 0
    requires |argv| >= 1 && argv[0] == "fg" && Resolve(t.slots, argv).Found?
    ensures var i := Resolve(t.slots, argv).index;
      var pid := t.slots[i].pid;
      DoBgFgOf(t, argv, [Chld([Child(pid, Exited)])]).out == [Kill(0, SIGCONT)] &&
      DoBgFgOf(t, argv, [Chld([Child(pid, Exited)])]).outcome == Returned
  {
    var i := Resolve(t.slots, argv).index;
    var pid := t.slots[i].pid;
    ResolveFound(t.slots, argv);
    SetFgUnique(t, i);
    var t1 := SetState(t, i, Fg);
    assert JobIndexByPid(t1.slots, pid) == Some(i) by {
      FindFirst(t1.slots, ByPid(pid), 0);
      FindSome(t1.slots, ByPid(pid), i);
      forall j | 0 <= j < i
        ensures !Matches(t1.slots[j], ByPid(pid))
      {
        assert t.slots[j].pid != t.slots[i].pid;
      }
    }
    WaitExited(t1, i, pid);
  }

  /** The wait for a job whose only child exits: the handler clears the slot and the wait returns. */
  lemma WaitExited(t1: JobTable, i: nat, pid: int)
    requires ValidTable(t1) && DistinctPids(t1.slots) && i < |t1.slots|
    requires JobIndexByPid(t1.slots, pid) == Some(i) && FgPidOf(t1.slots) == pid
    ensures var r := WaitFgOf(t1, pid, [Chld([Child(pid, Exited)])]);
      r.outcome == Returned && r.out == [] && r.table.slots[i].pid == 0
  {
    var t2 := AfterDelete(t1, pid);
    assert t2.slots[i] == Cleared;
    DeleteJobTwice(t1, pid);
    FindFirst(t2.slots, InState(Fg), 0);
    if FgPidOf(t2.slots) == pid {
      FindSome(t2.slots, ByPid(pid), Find(t2.slots, InState(Fg), 0).value);
    }
    var c := Child(pid, Exited);
    assert [c][1..] == [];
    assert ReapOf(t1, [c]) == Run(t2, [], Returned);
    var ds := [Chld([c])];
    assert ds[1..] == [];
    assert WaitFgOf(t2, pid, []) == Nothing(t2);
    assert WaitFgOf(t1, pid, ds) == Run(t2, [], Returned);
  }

  /**
   * fg on a job, then ctrl-Z during the wait: the handler marks the job ST and
   * stops its process group, the wait returns, and the SIGCONT that follows
   * continues the job at once, while its slot still says it is stopped.
   */
  lemma FgStopUndone(t: JobTable, i: nat)
    requires ValidTable(t) && DistinctPids(t.slots) && FgPidOf(t.slots) == 0
    requires i < |t.slots| && t.slots[i].pid != 0
    ensures var p := t.slots[i].pid;
      var r := FgOf(t, i, [Tstp]);
      r.outcome == Returned &&
      r.out == [Kill(-p, SIGTSTP), Kill(p, SIGCONT)] &&
      r.table == JobTable(t.slots[i := t.slots[i].(state := St)], t.nextjid)
  {
    var p := t.slots[i].pid;
    SetFgUnique(t, i);
    var t1 := SetState(t, i, Fg);
    assert JobIndexByPid(t1.slots, p) == Some(i) by {
      FindFirst(t1.slots, ByPid(p), 0);
      FindSome(t1.slots, ByPid(p), i);
      forall j | 0 <= j < i
        ensures !Matches(t1.slots[j], ByPid(p))
      {
        assert t.slots[j].pid != t.slots[i].pid;
      }
    }
    FindFirst(t.slots, InState(Fg), 0);
    assert Coherent(t, p);
    SetStateCoherent(t, i, Fg, p);
    SigtstpEffect(t1, p);
    var t2 := SetState(t1, i, St);
    assert SigtstpOf(t1) == Run(t2, [Kill(-p, SIGTSTP)], Returned);
    assert [Tstp][1..] == [];
    assert WaitFgOf(t2, p, []) == Nothing(t2);
    assert WaitFgOf(t1, p, [Tstp]) == Run(t2, [Kill(-p, SIGTSTP)], Returned);
    assert t2.slots == t.slots[i := t.slots[i].(state := St)];
  }

  /**
   * bg and fg, started with no job in the foreground and distinct pids, leave
   * no job in the foreground and pids distinct when they return.
   */
  lemma BgFgNoForeground(t: JobTable, argv: seq<string>, ds: seq<Delivery>)
    requires |argv| >= 1 && (argv[0] == "bg" || argv[0] == "fg")
    requires Coherent(t, 0) && FgPidOf(t.slots) == 0
    ensures var r := DoBgFgOf(t, argv, ds);
      r.outcome == Returned ==> Coherent(r.table, 0) && FgPidOf(r.table.slots) == 0
  {
    var r := DoBgFgOf(t, argv, ds);
    FindFirst(t.slots, InState(Fg), 0);
    match Resolve(t.slots, argv)
    case Found(i) =>
      if |argv| >= 2 {
        ResolveFound(t.slots, argv);
      }
      var q := t.slots[i].pid;
      if argv[0] == "bg" {
        SetStateCoherent(t, i, Bg, 0);
        FindFirst(r.table.slots, InState(Fg), 0);
      } else if r.outcome == Returned {
        assert Coherent(t, q);
        SetStateCoherent(t, i, Fg, q);
        WaitFgCoherent(SetState(t, i, Fg), q, ds, q);
        FgOnlyReleased(r.table.slots, q);
      }
    case _ =>
  }

  /** builtin_cmd: quit exits with status 0, bg and fg run do_bgfg, jobs lists the table; None for anything else. */
  function BuiltinOf(t: JobTable, argv: seq<string>, ds: seq<Delivery>): Option<Run>
    requires |argv| >= 1
  {
    if argv[0] == "quit" then Some(Run(t, [], Exit(0)))
    else if argv[0] == "bg" then Some(DoBgFgOf(t, argv, ds))
    else if argv[0] == "fg" then Some(DoBgFgOf(t, argv, ds))
    else if argv[0] == "jobs" then Some(Run(t, ListingFrom(t.slots, 0), Returned))
    else None
  }

  // ---------------------------------------------------------------------------
  // eval, the parent's side

  /** After fork, as in the later draft: register `pid`, then acknowledge it or wait for it. */
  function LaunchOf(t: JobTable, cmdline: string, bg: bool, pid: int, ds: seq<Delivery>): Run {
    if !AddSucceeds(t, pid) then Run(t, AddJobOutput(t, pid), Exit(1))
    else
      var t1 := AfterAdd(t, pid, if bg then Bg else Fg, cmdline);
      if bg then
        match JobIndexByPid(t1.slots, pid)
        case None => Run(t1, [], Fault)
        case Some(i) => Run(t1, [Out(Ack(t1.slots[i].jid, pid, cmdline))], Returned)
      else WaitFgOf(t1, pid, ds)
  }

  /** Launching a child whose pid is not in the table, with no job in the foreground, leaves none there when it returns. */
  lemma LaunchNoForeground(t: JobTable, cmdline: string, bg: bool, pid: int, ds: seq<Delivery>)
    requires Coherent(t, 0) && FgPidOf(t.slots) == 0 && JobIndexByPid(t.slots, pid).None?
    ensures var r := LaunchOf(t, cmdline, bg, pid, ds);
      r.outcome == Returned ==> Coherent(r.table, 0) && FgPidOf(r.table.slots) == 0
  {
    var r := LaunchOf(t, cmdline, bg, pid, ds);
    FindFirst(t.slots, InState(Fg), 0);
    if AddSucceeds(t, pid) && r.outcome == Returned {
      if bg {
        AddCoherent(t, pid, Bg, cmdline, 0);
        FindFirst(r.table.slots, InState(Fg), 0);
      } else {
        assert Coherent(t, pid);
        AddCoherent(t, pid, Fg, cmdline, pid);
        WaitFgCoherent(AfterAdd(t, pid, Fg, cmdline), pid, ds, pid);
        FgOnlyReleased(r.table.slots, pid);
      }
    }
  }

  /** eval: a blank line does nothing; a builtin runs in the shell; anything else is launched as child `pid`. */
  function EvalOf(t: JobTable, cmdline: string, pid: int, ds: seq<Delivery>): Run
    requires |cmdline| >= 1
  {
    var (argv, bg) := Parse.ParseResult(cmdline);
    if |argv| == 0 then Nothing(t)
    else
      match BuiltinOf(t, argv, ds)
      case Some(r) => r
      case None => LaunchOf(t, cmdline, bg, pid, ds)
  }

  /**
   * "At most one job is in the foreground", as eval keeps it in this draft
   * too: from a table with no foreground job and distinct pids, and a fresh
   * child pid, an eval that returns leaves no job in the foreground.
   */
  lemma EvalNoForeground(t: JobTable, cmdline: string, pid: int, ds: seq<Delivery>)
    requires |cmdline| >= 1
    requires Coherent(t, 0) && FgPidOf(t.slots) == 0 && JobIndexByPid(t.slots, pid).None?
    ensures var r := EvalOf(t, cmdline, pid, ds);
      r.outcome == Returned ==> Coherent(r.table, 0) && FgPidOf(r.table.slots) == 0
  {
    var (argv, bg) := Parse.ParseResult(cmdline);
    if |argv| > 0 {
      if argv[0] == "bg" || argv[0] == "fg" {
        BgFgNoForeground(t, argv, ds);
      } else {
        LaunchNoForeground(t, cmdline, bg, pid, ds);
      }
    }
  }

  // ---------------------------------------------------------------------------
  // The routines

  /** One pass of sigchld_handler's loop. */
  method ReapOne(sh: Shell, c: Child) returns (outcome: Outcome)
    requires sh.Valid()
    modifies sh, sh.jobs
    ensures sh.Valid() && sh.jobs == old(sh.jobs)
    ensures Did(sh, old(sh.trace), ReapOneOf(old(sh.View()), c), outcome)
  {
    var job := sh.GetJobPid(c.pid);
    if c.status == Stopped {
      if job.None? {
        return Fault;
      }
      SetStateValid(sh.View(), job.value, St);
      sh.jobs[job.value] := sh.jobs[job.value].(state := St);
      var jid := sh.Pid2Jid(sh.jobs[job.value].pid);
      sh.trace := sh.trace + [Out(StopNotice(jid, sh.jobs[job.value].pid))];
    } else if c.status == Signaled {
      if job.None? {
        return Fault;
      }
      var jid := sh.Pid2Jid(sh.jobs[job.value].pid);
      sh.trace := sh.trace + [Out(KillNotice(jid, sh.jobs[job.value].pid))];
      var _ := sh.DeleteJob(c.pid);
    } else {
      var _ := sh.DeleteJob(c.pid);
    }
    return Returned;
  }

  /** sigchld_handler: handles the children the waitpid loop collects, in order, until one faults. */
  method SigchldHandler(sh: Shell, reaped: seq<Child>) returns (outcome: Outcome)
    requires sh.Valid()
    modifies sh, sh.jobs
    ensures sh.Valid() && sh.jobs == old(sh.jobs)
    ensures Did(sh, old(sh.trace), ReapOf(old(sh.View()), reaped), outcome)
  {
    ghost var out: seq<Effect> := [];
    for k := 0 to |reaped|
      invariant sh.Valid() && sh.jobs == old(sh.jobs)
      invariant sh.trace == old(sh.trace) + out
      invariant ReapOf(old(sh.View()), reaped) == After(out, ReapOf(sh.View(), reaped[k..]))
    {
      ghost var r := ReapOneOf(sh.View(), reaped[k]);
      ReapStep(sh.View(), reaped, k);
      AfterAfter(out, r.out, ReapOf(r.table, reaped[k + 1..]));
      AfterAfter(old(sh.trace), out, r);
      outcome := ReapOne(sh, reaped[k]);
      if outcome != Returned {
        return;
      }
      out := out + r.out;
    }
    return Returned;
  }

  /** sigtstp_handler */
  method Sigtstp(sh: Shell) returns (outcome: Outcome)
    requires sh.Valid()
    modifies sh, sh.jobs
    ensures sh.Valid() && sh.jobs == old(sh.jobs)
    ensures Did(sh, old(sh.trace), SigtstpOf(old(sh.View())), outcome)
  {
    var fgPid := sh.FgPid();
    if fgPid == 0 {
      return Returned;
    }
    var job := sh.GetJobPid(fgPid);
    if job.None? {
      return Fault;
    }
    SetStateValid(sh.View(), job.value, St);
    sh.jobs[job.value] := sh.jobs[job.value].(state := St);
    sh.trace := sh.trace + [Kill(-sh.jobs[job.value].pid, SIGTSTP)];
    return Returned;
  }

  /** One handler run while the shell sleeps. */
  method Deliver(sh: Shell, d: Delivery) returns (outcome: Outcome)
    requires sh.Valid()
    modifies sh, sh.jobs
    ensures sh.Valid() && sh.jobs == old(sh.jobs)
    ensures Did(sh, old(sh.trace), DeliverOf(old(sh.View()), d), outcome)
  {
    match d {
      case Chld(cs) =>
        outcome := SigchldHandler(sh, cs);
      case Intr =>
        outcome := Forward(sh, SIGINT, Fault);
      case Tstp =>
        outcome := Sigtstp(sh);
    }
  }

  /** waitfg: checks fgpid() and sleeps, one handler run per sleep, until fgpid() is not `pid`. */
  method WaitFg(sh: Shell, pid: int, ds: seq<Delivery>) returns (outcome: Outcome)
    requires sh.Valid()
    modifies sh, sh.jobs
    ensures sh.Valid() && sh.jobs == old(sh.jobs)
    ensures Did(sh, old(sh.trace), WaitFgOf(old(sh.View()), pid, ds), outcome)
  {
    var k := 0;
    ghost var out: seq<Effect> := [];
    while true
      invariant k <= |ds|
      invariant sh.Valid() && sh.jobs == old(sh.jobs)
      invariant sh.trace == old(sh.trace) + out
      invariant WaitFgOf(old(sh.View()), pid, ds) == After(out, WaitFgOf(sh.View(), pid, ds[k..]))
      decreases |ds| - k
    {
      var fg := sh.FgPid();
      if fg != pid {
        return Returned;
      }
      if k == |ds| {
        return Blocked;
      }
      ghost var r := DeliverOf(sh.View(), ds[k]);
      WaitFgStep(sh.View(), pid, ds, k);
      AfterAfter(old(sh.trace), out, Run(r.table, r.out, Returned));
      AfterAfter(out, r.out, WaitFgOf(r.table, pid, ds[k + 1..]));
      outcome := Deliver(sh, ds[k]);
      if outcome != Returned {
        return;
      }
      out := out + r.out;
      k := k + 1;
    }
  }

  /** do_bgfg */
  method DoBgFg(sh: Shell, argv: seq<string>, ds: seq<Delivery>) returns (outcome: Outcome)
    requires sh.Valid() && |argv| >= 1 && (argv[0] == "bg" || argv[0] == "fg")
    modifies sh, sh.jobs
    ensures sh.Valid() && sh.jobs == old(sh.jobs)
    ensures Did(sh, old(sh.trace), DoBgFgOf(old(sh.View()), argv, ds), outcome)
  {
    var target := ResolveArg(sh, argv);
    if |argv| >= 2 {
      ResolveFound(sh.jobs[..], argv);
    }
    if !target.Found? {
      sh.trace := sh.trace + [Out(ErrorText(argv, target))];
      return Returned;
    }
    if argv[0] == "bg" {
      Background(sh, target.index);
      return Returned;
    } else {
      outcome := Foreground(sh, target.index, ds);
    }
  }

  /** The bg branch of do_bgfg. */
  method Background(sh: Shell, i: nat)
    requires sh.Valid() && i < MAXJOBS && sh.jobs[i].pid != 0
    modifies sh, sh.jobs
    ensures sh.Valid() && sh.jobs == old(sh.jobs)
    ensures Did(sh, old(sh.trace), BgOf(old(sh.View()), i), Returned)
  {
    SetStateValid(sh.View(), i, Bg);
    sh.jobs[i] := sh.jobs[i].(state := Bg);
    var jid := sh.Pid2Jid(sh.jobs[i].pid);
    sh.trace := sh.trace + [Kill(sh.jobs[i].pid, SIGCONT), Out(Ack(jid, sh.jobs[i].pid, sh.jobs[i].cmdline))];
  }

  /** The fg branch of do_bgfg. */
  method Foreground(sh: Shell, i: nat, ds: seq<Delivery>) returns (outcome: Outcome)
    requires sh.Valid() && i < MAXJOBS && sh.jobs[i].pid != 0
    modifies sh, sh.jobs
    ensures sh.Valid() && sh.jobs == old(sh.jobs)
    ensures Did(sh, old(sh.trace), FgOf(old(sh.View()), i, ds), outcome)
  {
    SetStateValid(sh.View(), i, Fg);
    sh.jobs[i] := sh.jobs[i].(state := Fg);
    outcome := WaitFg(sh, sh.jobs[i].pid, ds);
    if outcome != Returned {
      return;
    }
    sh.trace := sh.trace + [Kill(sh.jobs[i].pid, SIGCONT)];
  }

  /** builtin_cmd: returns whether argv names a builtin, and how running it ended. */
  method BuiltinCmd(sh: Shell, argv: seq<string>, ds: seq<Delivery>) returns (builtin: bool, outcome: Outcome)
    requires sh.Valid() && |argv| >= 1
    modifies sh, sh.jobs
    ensures sh.Valid() && sh.jobs == old(sh.jobs)
    ensures builtin == BuiltinOf(old(sh.View()), argv, ds).Some?
    ensures builtin ==> Did(sh, old(sh.trace), BuiltinOf(old(sh.View()), argv, ds).value, outcome)
    ensures !builtin ==> sh.View() == old(sh.View()) && sh.trace == old(sh.trace)
  {
    if argv[0] == "quit" {
      return true, Exit(0);
    } else if argv[0] == "bg" {
      outcome := DoBgFg(sh, argv, ds);
      return true, outcome;
    } else if argv[0] == "fg" {
      outcome := DoBgFg(sh, argv, ds);
      return true, outcome;
    } else if argv[0] == "jobs" {
      sh.ListJobs();
      return true, Returned;
    }
    return false, Returned;
  }

  /** eval, with `pid` the value fork returned to the shell. */
  method Eval(sh: Shell, cmdline: string, pid: int, ds: seq<Delivery>) returns (outcome: Outcome)
    requires sh.Valid() && 1 <= |cmdline| < MAXLINE && Parse.IsCString(cmdline)
    requires |Parse.ArgsFrom(Parse.Buffer(cmdline), 0)| < MAXARGS
    modifies sh, sh.jobs
    ensures sh.Valid() && sh.jobs == old(sh.jobs)
    ensures Did(sh, old(sh.trace), EvalOf(old(sh.View()), cmdline, pid, ds), outcome)
  {
    var argv, bg := Parse.ParseLine(cmdline);
    if |argv| == 0 {
      return Returned;
    }
    var builtin;
    builtin, outcome := BuiltinCmd(sh, argv, ds);
    if builtin {
      return;
    }
    outcome := Launch(sh, cmdline, bg, pid, ds);
  }

  /** The parent's side of eval after fork returned `pid` for a command that is not a builtin. */
  method Launch(sh: Shell, cmdline: string, bg: bool, pid: int, ds: seq<Delivery>) returns (outcome: Outcome)
    requires sh.Valid()
    modifies sh, sh.jobs
    ensures sh.Valid() && sh.jobs == old(sh.jobs)
    ensures Did(sh, old(sh.trace), LaunchOf(old(sh.View()), cmdline, bg, pid, ds), outcome)
  {
    var ok := sh.AddJob(pid, if bg then Bg else Fg, cmdline);
    if !ok {
      return Exit(1);
    }
    assert sh.trace == old(sh.trace);
    if bg {
      var job := sh.GetJobPid(pid);
      if job.None? {
        return Fault;
      }
      sh.trace := sh.trace + [Out(Ack(sh.jobs[job.value].jid, pid, cmdline))];
      return Returned;
    } else {
      outcome := WaitFg(sh, pid, ds);
    }
  }
}
