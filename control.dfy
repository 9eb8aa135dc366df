/**
 * What the two drafts of the shell share beyond the job table: the events a
 * signal handler reacts to, the result of running a piece of the shell, the
 * fixed message texts, and how `bg` and `fg` find the job their argument names.
 */
module JobControl {
  import opened Wrappers
  import opened CString
  import opened Jobs

  /** How a child changed, as the status waitpid reports for it. */
  datatype Status = Stopped | Signaled | Exited

  /** One child that waitpid returned: its pid and what happened to it. */
  datatype Child = Child(pid: int, status: Status)

  /**
   * One handler run. SIGCHLD carries the children that the handler's waitpid
   * loop collects, in the order waitpid returns them; ctrl-C and ctrl-Z carry nothing.
   */
  datatype Delivery = Chld(reaped: seq<Child>) | Intr | Tstp

  /**
   * How a piece of the shell ends: it returns; the shell exits with a status;
   * a wait for the foreground job is still blocked when the deliveries run out;
   * or the shell dereferences a NULL job pointer.
   */
  datatype Outcome = Returned | Exit(status: int) | Blocked | Fault

  /** The table afterwards, what was printed or sent meanwhile, and how it ended. */
  datatype Run = Run(table: JobTable, out: seq<Effect>, outcome: Outcome)

  /** `r`, with `out` done before it. */
  function After(out: seq<Effect>, r: Run): Run {
    Run(r.table, out + r.out, r.outcome)
  }

  /** Proof helper, not part of the model: output written in two parts and then a run is the parts joined, then the run. */
  lemma AfterAfter(a: seq<Effect>, b: seq<Effect>, r: Run)
    ensures After(a, After(b, r)) == After(a + b, r)
    ensures a + (b + r.out) == (a + b) + r.out
  {
    assert a + (b + r.out) == (a + b) + r.out;
  }

  /** The shell `sh` has done `r`, starting from output `out0`, and ended with `outcome`. */
  ghost predicate Did(sh: Shell, out0: seq<Effect>, r: Run, outcome: Outcome)
    reads sh, sh.jobs
  {
    sh.View() == r.table && sh.trace == out0 + r.out && outcome == r.outcome
  }

  /** A run that changes nothing and returns. */
  function Nothing(t: JobTable): Run {
    Run(t, [], Returned)
  }

  function StopNotice(jid: int, pid: int): string {
    "Job [" + Decimal(jid) + "] (" + Decimal(pid) + ") stopped by signal SIGTSTP\n"
  }

  function KillNotice(jid: int, pid: int): string {
    "Job [" + Decimal(jid) + "] (" + Decimal(pid) + ") terminated by signal SIGINT\n"
  }

  /** "[jid] (pid) cmdline": the acknowledgment for a background job. */
  function Ack(jid: int, pid: int, cmdline: string): string {
    "[" + Decimal(jid) + "] (" + Decimal(pid) + ") " + cmdline
  }

  // ---------------------------------------------------------------------------
  // Forwarding a keyboard signal

  /**
   * The forwarding both drafts do for ctrl-C (and the later draft for ctrl-Z):
   * with no foreground job nothing happens; otherwise the signal goes to the
   * process group of the job that getjobpid finds for the foreground pid. A
   * NULL from getjobpid ends the shell with `onNull`.
   */
  function ForwardOf(t: JobTable, sig: Signal, onNull: Outcome): Run {
    var p := FgPidOf(t.slots);
    if p == 0 then Nothing(t)
    else
      match JobIndexByPid(t.slots, p)
      case None => Run(t, [], onNull)
      case Some(i) => Run(t, [Kill(-t.slots[i].pid, sig)], Returned)
  }

  /**
   * In a valid table forwarding never changes the table and never fails: it
   * sends nothing when no job is in the foreground, and otherwise exactly one
   * signal, to the group of the first job in state FG.
   */
  lemma ForwardEffect(t: JobTable, sig: Signal, onNull: Outcome)
    requires ValidTable(t)
    ensures var r := ForwardOf(t, sig, onNull);
      r.table == t && r.outcome == Returned &&
      (CountState(t.slots, Fg) == 0 ==> r.out == []) &&
      (CountState(t.slots, Fg) > 0 ==>
        exists i :: 0 <= i < |t.slots| && t.slots[i].state == Fg &&
          (forall j :: 0 <= j < i ==> t.slots[j].state != Fg) &&
          t.slots[i].pid >= 1 && r.out == [Kill(-t.slots[i].pid, sig)])
  {
    FgPidZero(t);
    FindFirst(t.slots, InState(Fg), 0);
    var p := FgPidOf(t.slots);
    if p != 0 {
      var i := Find(t.slots, InState(Fg), 0).value;
      var k := JobIndexByPid(t.slots, p).value;
      assert t.slots[k].pid == p == t.slots[i].pid;
    }
  }

  /**
   * sigint_handler of both drafts and sigtstp_handler of the later one: look
   * up the foreground pid, then its job, and kill the job's process group.
   */
  method Forward(sh: Shell, sig: Signal, onNull: Outcome) returns (outcome: Outcome)
    requires sh.Valid()
    modifies sh
    ensures sh.Valid() && sh.jobs == old(sh.jobs)
    ensures Did(sh, old(sh.trace), ForwardOf(old(sh.View()), sig, onNull), outcome)
  {
    var fgPid := sh.FgPid();
    if fgPid == 0 {
      return Returned;
    }
    var job := sh.GetJobPid(fgPid);
    if job.None? {
      return onNull;
    }
    sh.trace := sh.trace + [Kill(-sh.jobs[job.value].pid, sig)];
    return Returned;
  }

  // ---------------------------------------------------------------------------
  // The argument of bg and fg

  /** What the argument of bg or fg leads to. */
  datatype Target = Found(index: nat) | NoArgument | NoProcess(pid: int) | NoJob | BadArgument

  /** A job reference: the argument starts with '%'. */
  predicate IsJobRef(arg: string) {
    |arg| > 0 && arg[0] == '%'
  }

  /**
   * do_bgfg's lookup: without a second argument there is nothing to look up;
   * "%n" looks up job id atoi(n); anything else looks up pid atoi(arg). A
   * failed pid lookup is reported as a missing process when the argument
   * starts with a digit and as a malformed argument otherwise.
   */
  function Resolve(s: seq<Job>, argv: seq<string>): (r: Target)
    ensures r.Found? ==> r.index < |s|
  {
    if |argv| < 2 then NoArgument
    else
      var arg := argv[1];
      if IsJobRef(arg) then
        match JobIndexByJid(s, Atoi(arg[1..]))
        case Some(i) => Found(i)
        case None => NoJob
      else
        var pid := Atoi(arg);
        match JobIndexByPid(s, pid)
        case Some(i) => Found(i)
        case None => if |arg| > 0 && IsDigit(arg[0]) then NoProcess(pid) else BadArgument
  }

  /**
   * The lookup in do_bgfg, the same in both drafts: "%n" goes to getjobjid,
   * anything else to getjobpid, and pj_id_flag records which message a
   * failed lookup prints.
   */
  method ResolveArg(sh: Shell, argv: seq<string>) returns (target: Target)
    requires sh.Valid()
    ensures target == Resolve(sh.jobs[..], argv)
  {
    if |argv| < 2 {
      return NoArgument;
    }
    var arg := argv[1];
    var job: Option<nat>;
    var pid := 0;
    var flag := 3;
    if !IsJobRef(arg) {
      pid := Atoi(arg);
      job := sh.GetJobPid(pid);
      if |arg| > 0 && IsDigit(arg[0]) {
        flag := 0;
      }
    } else {
      var jid := Atoi(arg[1..]);
      job := sh.GetJobJid(jid);
      flag := 1;
    }
    if job.Some? {
      return Found(job.value);
    } else if flag == 0 {
      return NoProcess(pid);
    } else if flag == 1 {
      return NoJob;
    } else {
      return BadArgument;
    }
  }

  /** The one line do_bgfg prints when the lookup fails. */
  function ErrorText(argv: seq<string>, r: Target): string
    requires |argv| >= 1
  {
    match r
    case NoArgument => argv[0] + " command requires PID or %jobid argument\n"
    case NoProcess(pid) => "(" + Decimal(pid) + "): No such process\n"
    case NoJob => (if |argv| >= 2 then argv[1] else "") + ": No such job\n"
    case BadArgument => argv[0] + ": argument must be a PID or %jobid\n"
    case Found(_) => ""
  }

  /**
   * A job is found exactly when the number the argument spells is positive
   * and some slot holds it as job id ("%n") or pid (otherwise); the job found
   * is the first such slot in table order. A failed lookup picks its message
   * from the argument alone: a job reference gives "No such job", a leading
   * digit "No such process" with the number read, anything else the
   * malformed-argument message.
   */
  lemma ResolveFound(s: seq<Job>, argv: seq<string>)
    requires |argv| >= 2
    ensures var arg := argv[1];
      var n := if IsJobRef(arg) then Atoi(arg[1..]) else Atoi(arg);
      var k := if IsJobRef(arg) then ByJid(n) else ByPid(n);
      (Resolve(s, argv).Found? <==> n >= 1 && exists i :: 0 <= i < |s| && Matches(s[i], k)) &&
      (Resolve(s, argv).Found? ==>
        Matches(s[Resolve(s, argv).index], k) &&
        forall j :: 0 <= j < Resolve(s, argv).index ==> !Matches(s[j], k)) &&
      (!Resolve(s, argv).Found? ==>
        Resolve(s, argv) ==
          if IsJobRef(arg) then NoJob
          else if |arg| > 0 && IsDigit(arg[0]) then NoProcess(n)
          else BadArgument)
  {
    var arg := argv[1];
    var n := if IsJobRef(arg) then Atoi(arg[1..]) else Atoi(arg);
    var k := if IsJobRef(arg) then ByJid(n) else ByPid(n);
    FindFirst(s, k, 0);
  }

  /** Naming a job by its pid, as printf's %d writes it, finds that job when pids are distinct. */
  lemma ResolveByPid(s: seq<Job>, cmd: string, i: nat)
    requires DistinctPids(s) && i < |s| && s[i].pid >= 1
    ensures Resolve(s, [cmd, Decimal(s[i].pid)]) == Found(i)
  {
    var p := s[i].pid;
    AtoiDecimal(p);
    FindFirst(s, ByPid(p), 0);
    FindSome(s, ByPid(p), i);
  }

  /** Naming a job as "%jid" finds the first job with that job id, which is that job or an earlier one. */
  lemma ResolveByJid(s: seq<Job>, cmd: string, i: nat)
    requires i < |s| && s[i].jid >= 1
    ensures var r := Resolve(s, [cmd, "%" + Decimal(s[i].jid)]);
      r.Found? && r.index <= i && s[r.index].jid == s[i].jid &&
      forall k :: 0 <= k < r.index ==> s[k].jid != s[i].jid
  {
    var arg := "%" + Decimal(s[i].jid);
    assert arg[1..] == Decimal(s[i].jid);
    AtoiDecimal(s[i].jid);
    FindSome(s, ByJid(s[i].jid), i);
    FindFirst(s, ByJid(s[i].jid), 0);
  }
}
