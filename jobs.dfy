/**
 * The job table of tsh: a fixed array of MAXJOBS slots plus the counter
 * `nextjid`, and the shell's output, all of which the C program keeps in
 * globals. The helper routines are identical in both drafts of the shell.
 *
 * The pure functions over `JobTable` say what each helper computes; the
 * class `Shell` holds the mutable state and its methods are the C loops,
 * each proved to agree with its function.
 */
module Jobs {
  import opened Wrappers
  import opened CString

  const MAXJOBS: nat := 16
  const MAXLINE: nat := 1024
  const MAXARGS: nat := 128

  /** UNDEF, FG, BG and ST. */
  datatype JobState = Undef | Fg | Bg | St

  /** The integer the C code stores for a state. */
  function StateCode(st: JobState): int {
    match st
    case Undef => 0
    case Fg => 1
    case Bg => 2
    case St => 3
  }

  datatype Job = Job(pid: int, jid: int, state: JobState, cmdline: string)

  /** A slot as `clearjob` leaves it. */
  const Cleared := Job(0, 0, Undef, "")

  /** A free slot is exactly a cleared one; an occupied slot has a positive pid and jid. */
  predicate SlotOk(j: Job) {
    if j.pid == 0 then j == Cleared else j.pid >= 1 && j.jid >= 1
  }

  /** The signals the shell sends. */
  datatype Signal = SIGINT | SIGTSTP | SIGCONT

  /** One observable action: text written by printf, or a call kill(target, sig). */
  datatype Effect = Out(text: string) | Kill(target: int, sig: Signal)

  /** The abstract value of the table: its slots and the counter `nextjid`. */
  datatype JobTable = JobTable(slots: seq<Job>, nextjid: int)

  predicate ValidTable(t: JobTable) {
    |t.slots| == MAXJOBS && t.nextjid >= 1 &&
    forall i :: 0 <= i < |t.slots| ==> SlotOk(t.slots[i])
  }

  // ---------------------------------------------------------------------------
  // Linear scans

  /** What a scan compares a slot with. */
  datatype Key = ByPid(pid: int) | ByJid(jid: int) | InState(state: JobState)

  predicate Matches(j: Job, k: Key) {
    match k
    case ByPid(p) => j.pid == p
    case ByJid(n) => j.jid == n
    case InState(st) => j.state == st
  }

  /** Index of the first slot at or after `from` that matches `k`. */
  function Find(s: seq<Job>, k: Key, from: nat): (r: Option<nat>)
    ensures r.Some? ==> from <= r.value < |s| && Matches(s[r.value], k)
    decreases |s| - from
  {
    if from >= |s| then None
    else if Matches(s[from], k) then Some(from)
    else Find(s, k, from + 1)
  }

  /** `Find` returns the lowest matching index, and None only when nothing matches. */
  lemma {:induction false} FindFirst(s: seq<Job>, k: Key, from: nat)
    ensures Find(s, k, from).Some? ==>
      forall j :: from <= j < Find(s, k, from).value ==> !Matches(s[j], k)
    ensures Find(s, k, from).None? ==> forall j :: from <= j < |s| ==> !Matches(s[j], k)
    decreases |s| - from
  {
    if from < |s| && !Matches(s[from], k) {
      FindFirst(s, k, from + 1);
    }
  }

  /** Any slot that matches makes `Find` succeed, at that slot or an earlier one. */
  lemma FindSome(s: seq<Job>, k: Key, i: nat)
    requires i < |s| && Matches(s[i], k)
    ensures Find(s, k, 0).Some? && Find(s, k, 0).value <= i
  {
    FindFirst(s, k, 0);
  }

  /** `Find` only looks at the field `k` names, so it ignores any other change. */
  lemma {:induction false} FindSameKeys(s: seq<Job>, s': seq<Job>, k: Key, from: nat)
    requires |s| == |s'|
    requires forall j :: 0 <= j < |s| ==> (Matches(s[j], k) <==> Matches(s'[j], k))
    ensures Find(s, k, from) == Find(s', k, from)
    decreases |s| - from
  {
    if from < |s| {
      FindSameKeys(s, s', k, from + 1);
    }
  }

  /** getjobpid: the first slot holding `pid`; None for a non-positive pid. */
  function JobIndexByPid(s: seq<Job>, pid: int): Option<nat> {
    if pid < 1 then None else Find(s, ByPid(pid), 0)
  }

  /** getjobjid: the first slot holding `jid`; None for a non-positive jid. */
  function JobIndexByJid(s: seq<Job>, jid: int): Option<nat> {
    if jid < 1 then None else Find(s, ByJid(jid), 0)
  }

  /** pid2jid: the jid of the first slot holding `pid`, or 0. */
  function Pid2JidOf(s: seq<Job>, pid: int): int {
    match JobIndexByPid(s, pid)
    case None => 0
    case Some(i) => s[i].jid
  }

  /** fgpid: the pid of the first slot in state FG, or 0. */
  function FgPidOf(s: seq<Job>): int {
    match Find(s, InState(Fg), 0)
    case None => 0
    case Some(i) => s[i].pid
  }

  /** maxjid: the largest jid in the table, 0 if all are smaller (a cleared slot has jid 0). */
  function MaxJidOf(s: seq<Job>): int {
    if |s| == 0 then 0
    else
      var m := MaxJidOf(s[..|s| - 1]);
      if s[|s| - 1].jid > m then s[|s| - 1].jid else m
  }

  lemma {:induction false} MaxJidIsMax(s: seq<Job>)
    ensures MaxJidOf(s) >= 0
    ensures forall i :: 0 <= i < |s| ==> s[i].jid <= MaxJidOf(s)
    ensures MaxJidOf(s) == 0 || exists i :: 0 <= i < |s| && s[i].jid == MaxJidOf(s)
  {
    if |s| > 0 {
      var p := s[..|s| - 1];
      MaxJidIsMax(p);
      assert forall i :: 0 <= i < |p| ==> s[i] == p[i];
      if MaxJidOf(s) != 0 && MaxJidOf(s) == MaxJidOf(p) {
        var i :| 0 <= i < |p| && p[i].jid == MaxJidOf(p);
        assert s[i].jid == MaxJidOf(s);
      }
    }
  }

  /** Number of slots in state `st`. */
  function CountState(s: seq<Job>, st: JobState): nat {
    if |s| == 0 then 0
    else CountState(s[..|s| - 1], st) + (if s[|s| - 1].state == st then 1 else 0)
  }

  // ---------------------------------------------------------------------------
  // Updates

  function NextJidAfter(n: int): int {
    if n + 1 > MAXJOBS then 1 else n + 1
  }

  /** addjob succeeds: the pid is positive and some slot is free. */
  predicate AddSucceeds(t: JobTable, pid: int) {
    pid >= 1 && Find(t.slots, ByPid(0), 0).Some?
  }

  const TooManyJobs := "Tried to create too many jobs\n"

  /** addjob's new table. */
  function AfterAdd(t: JobTable, pid: int, st: JobState, cmdline: string): JobTable {
    if pid < 1 then t
    else
      match Find(t.slots, ByPid(0), 0)
      case None => t
      case Some(i) => JobTable(t.slots[i := Job(pid, t.nextjid, st, cmdline)], NextJidAfter(t.nextjid))
  }

  /** addjob's output: the complaint when the table is full. */
  function AddJobOutput(t: JobTable, pid: int): seq<Effect> {
    if pid >= 1 && Find(t.slots, ByPid(0), 0).None? then [Out(TooManyJobs)] else []
  }

  /** deletejob's new table. */
  function AfterDelete(t: JobTable, pid: int): JobTable {
    match JobIndexByPid(t.slots, pid)
    case None => t
    case Some(i) =>
      var s := t.slots[i := Cleared];
      JobTable(s, MaxJidOf(s) + 1)
  }

  /** `job->state = st` on slot i. */
  function SetState(t: JobTable, i: nat, st: JobState): JobTable
    requires i < |t.slots|
  {
    JobTable(t.slots[i := t.slots[i].(state := st)], t.nextjid)
  }

  // ---------------------------------------------------------------------------
  // listjobs

  function StateWord(i: nat, j: Job): string {
    match j.state
    case Bg => "Running "
    case Fg => "Foreground "
    case St => "Stopped "
    case Undef => "listjobs: Internal error: job[" + Decimal(i) + "].state=" + Decimal(StateCode(j.state)) + " "
  }

  /** Proof helper, not part of the model: associativity of output concatenation, given to the solver explicitly to keep loop proofs cheap. */
  lemma AppendAssoc(a: seq<Effect>, b: seq<Effect>, c: seq<Effect>)
    ensures a + (b + c) == (a + b) + c
  {
    assert a + (b + c) == (a + b) + c;
  }

  /** The three printf calls for slot i. */
  function JobLines(i: nat, j: Job): seq<Effect> {
    [Out("[" + Decimal(j.jid) + "] (" + Decimal(j.pid) + ") "), Out(StateWord(i, j)), Out(j.cmdline)]
  }

  /** What listjobs prints for slots `from` and after. */
  function ListingFrom(s: seq<Job>, from: nat): seq<Effect>
    decreases |s| - from
  {
    if from >= |s| then []
    else (if s[from].pid != 0 then JobLines(from, s[from]) else []) + ListingFrom(s, from + 1)
  }

  function Occupied(s: seq<Job>, from: nat): nat
    decreases |s| - from
  {
    if from >= |s| then 0 else (if s[from].pid != 0 then 1 else 0) + Occupied(s, from + 1)
  }

  /** listjobs writes three pieces per occupied slot and nothing for a free one. */
  lemma {:induction false} ListingLength(s: seq<Job>, from: nat)
    ensures |ListingFrom(s, from)| == 3 * Occupied(s, from)
    decreases |s| - from
  {
    if from < |s| {
      ListingLength(s, from + 1);
    }
  }

  /**
   * listjobs goes in array order, skipping free slots: what it prints from `from`
   * on starts with the lines of the first occupied slot at or after `from`.
   */
  lemma {:induction false} ListingSkipsFree(s: seq<Job>, from: nat, i: nat)
    requires from <= i < |s| && s[i].pid != 0
    requires forall j :: from <= j < i ==> s[j].pid == 0
    ensures ListingFrom(s, from) == JobLines(i, s[i]) + ListingFrom(s, i + 1)
    decreases i - from
  {
    if from < i {
      ListingSkipsFree(s, from + 1, i);
    }
  }

  // ---------------------------------------------------------------------------
  // Properties of the table operations

  /** Every operation keeps free slots cleared, occupied ones with positive pid and jid, and nextjid positive. */
  lemma AddJobValid(t: JobTable, pid: int, st: JobState, cmdline: string)
    requires ValidTable(t)
    ensures ValidTable(AfterAdd(t, pid, st, cmdline))
  {
  }

  lemma DeleteJobValid(t: JobTable, pid: int)
    requires ValidTable(t)
    ensures ValidTable(AfterDelete(t, pid))
  {
    MaxJidIsMax(t.slots);
    match JobIndexByPid(t.slots, pid)
    case None =>
    case Some(i) => MaxJidIsMax(t.slots[i := Cleared]);
  }

  lemma SetStateValid(t: JobTable, i: nat, st: JobState)
    requires ValidTable(t) && i < |t.slots| && t.slots[i].pid != 0
    ensures ValidTable(SetState(t, i, st))
  {
  }

  /**
   * addjob with a non-positive pid or a full table changes nothing; otherwise it
   * fills the lowest free slot with the given pid, state, command line and
   * jid = nextjid, leaves every other slot alone and advances nextjid, wrapping
   * to 1 past MAXJOBS.
   */
  lemma AddJobEffect(t: JobTable, pid: int, st: JobState, cmdline: string)
    ensures !AddSucceeds(t, pid) ==> AfterAdd(t, pid, st, cmdline) == t
    ensures AddSucceeds(t, pid) ==>
      exists i :: 0 <= i < |t.slots| && t.slots[i].pid == 0 &&
        (forall j :: 0 <= j < i ==> t.slots[j].pid != 0) &&
        AfterAdd(t, pid, st, cmdline).slots == t.slots[i := Job(pid, t.nextjid, st, cmdline)]
    ensures AddSucceeds(t, pid) ==>
      AfterAdd(t, pid, st, cmdline).nextjid == (if t.nextjid + 1 > MAXJOBS then 1 else t.nextjid + 1)
  {
    FindFirst(t.slots, ByPid(0), 0);
    if AddSucceeds(t, pid) {
      var i := Find(t.slots, ByPid(0), 0).value;
      assert t.slots[i].pid == 0;
    }
  }

  /**
   * deletejob of a non-positive or absent pid changes nothing; otherwise it clears
   * exactly the first slot holding the pid and sets nextjid one past the largest
   * remaining jid, so above every live jid.
   */
  lemma DeleteJobEffect(t: JobTable, pid: int)
    ensures JobIndexByPid(t.slots, pid).None? ==> AfterDelete(t, pid) == t
    ensures pid < 1 ==> AfterDelete(t, pid) == t
    ensures JobIndexByPid(t.slots, pid).Some? ==>
      exists i :: 0 <= i < |t.slots| && t.slots[i].pid == pid &&
        (forall j :: 0 <= j < i ==> t.slots[j].pid != pid) &&
        AfterDelete(t, pid).slots == t.slots[i := Cleared]
    ensures JobIndexByPid(t.slots, pid).Some? ==>
      forall j :: 0 <= j < |t.slots| ==> AfterDelete(t, pid).slots[j].jid < AfterDelete(t, pid).nextjid
  {
    if pid >= 1 {
      FindFirst(t.slots, ByPid(pid), 0);
    }
    match JobIndexByPid(t.slots, pid)
    case None =>
    case Some(i) => MaxJidIsMax(t.slots[i := Cleared]);
  }

  /** No two occupied slots hold the same pid. */
  predicate DistinctPids(s: seq<Job>) {
    forall i, j :: 0 <= i < j < |s| && s[i].pid != 0 ==> s[i].pid != s[j].pid
  }

  /** Adding a pid that is not yet in the table keeps pids distinct. */
  lemma AddJobDistinct(t: JobTable, pid: int, st: JobState, cmdline: string)
    requires DistinctPids(t.slots) && JobIndexByPid(t.slots, pid).None?
    ensures DistinctPids(AfterAdd(t, pid, st, cmdline).slots)
  {
    if pid >= 1 {
      FindFirst(t.slots, ByPid(pid), 0);
    }
  }

  /** With distinct pids, deleting the same pid twice: the second call finds nothing and changes nothing. */
  lemma DeleteJobTwice(t: JobTable, pid: int)
    requires DistinctPids(t.slots)
    ensures JobIndexByPid(AfterDelete(t, pid).slots, pid).None?
    ensures AfterDelete(AfterDelete(t, pid), pid) == AfterDelete(t, pid)
  {
    if pid >= 1 {
      FindFirst(t.slots, ByPid(pid), 0);
      var t' := AfterDelete(t, pid);
      FindFirst(t'.slots, ByPid(pid), 0);
    }
  }

  /** Round trip: after a successful add of a new pid, getjobpid finds the job with the state and command line added. */
  lemma AddThenLookup(t: JobTable, pid: int, st: JobState, cmdline: string)
    requires AddSucceeds(t, pid) && JobIndexByPid(t.slots, pid).None?
    ensures var t' := AfterAdd(t, pid, st, cmdline);
      JobIndexByPid(t'.slots, pid).Some? &&
      t'.slots[JobIndexByPid(t'.slots, pid).value] == Job(pid, t.nextjid, st, cmdline) &&
      Pid2JidOf(t'.slots, pid) == t.nextjid
  {
    FindFirst(t.slots, ByPid(pid), 0);
    var i := Find(t.slots, ByPid(0), 0).value;
    var t' := AfterAdd(t, pid, st, cmdline);
    FindSome(t'.slots, ByPid(pid), i);
  }

  /** In a valid table fgpid is 0 exactly when no slot is in state FG, and otherwise names an occupied slot. */
  lemma FgPidZero(t: JobTable)
    requires ValidTable(t)
    ensures FgPidOf(t.slots) == 0 <==> CountState(t.slots, Fg) == 0
    ensures FgPidOf(t.slots) != 0 ==> JobIndexByPid(t.slots, FgPidOf(t.slots)).Some?
  {
    FindFirst(t.slots, InState(Fg), 0);
    CountZero(t.slots, Fg);
    if FgPidOf(t.slots) != 0 {
      FindSome(t.slots, ByPid(FgPidOf(t.slots)), Find(t.slots, InState(Fg), 0).value);
    }
  }

  lemma {:induction false} CountZero(s: seq<Job>, st: JobState)
    ensures CountState(s, st) == 0 <==> forall i :: 0 <= i < |s| ==> s[i].state != st
  {
    if |s| > 0 {
      var p := s[..|s| - 1];
      CountZero(p, st);
      assert forall i :: 0 <= i < |p| ==> s[i] == p[i];
    }
  }

  /** Writing one slot changes the count of a state by what that slot had and now has. */
  lemma {:induction false} CountUpdate(s: seq<Job>, i: nat, j: Job, st: JobState)
    requires i < |s|
    ensures CountState(s[i := j], st) ==
      CountState(s, st) - (if s[i].state == st then 1 else 0) + (if j.state == st then 1 else 0)
  {
    var n := |s| - 1;
    if i < n {
      CountUpdate(s[..n], i, j, st);
      assert s[i := j][..n] == s[..n][i := j];
    } else {
      assert s[i := j][..n] == s[..n];
    }
  }

  /**
   * "At most one job is in the foreground" is not enforced by addjob, but it is
   * kept: adding a foreground job when fgpid is 0 leaves exactly one FG slot.
   */
  lemma AddFgUnique(t: JobTable, pid: int, cmdline: string)
    requires ValidTable(t) && FgPidOf(t.slots) == 0 && AddSucceeds(t, pid)
    ensures CountState(AfterAdd(t, pid, Fg, cmdline).slots, Fg) == 1
    ensures FgPidOf(AfterAdd(t, pid, Fg, cmdline).slots) == pid
  {
    FgPidZero(t);
    CountZero(t.slots, Fg);
    var i := Find(t.slots, ByPid(0), 0).value;
    var s' := AfterAdd(t, pid, Fg, cmdline).slots;
    CountUpdate(t.slots, i, Job(pid, t.nextjid, Fg, cmdline), Fg);
    FindSome(s', InState(Fg), i);
    FindFirst(s', InState(Fg), 0);
  }

  /** Likewise for `fg`: making an occupied slot FG when fgpid is 0 leaves exactly one FG slot, and fgpid names it. */
  lemma SetFgUnique(t: JobTable, i: nat)
    requires ValidTable(t) && i < |t.slots| && t.slots[i].pid != 0 && FgPidOf(t.slots) == 0
    ensures CountState(SetState(t, i, Fg).slots, Fg) == 1
    ensures FgPidOf(SetState(t, i, Fg).slots) == t.slots[i].pid
  {
    FgPidZero(t);
    CountZero(t.slots, Fg);
    var s' := SetState(t, i, Fg).slots;
    CountUpdate(t.slots, i, s'[i], Fg);
    FindSome(s', InState(Fg), i);
    FindFirst(s', InState(Fg), 0);
  }

  /** Clearing a slot or moving it out of FG never adds a foreground job. */
  lemma DeleteKeepsFgCount(t: JobTable, pid: int)
    ensures CountState(AfterDelete(t, pid).slots, Fg) <= CountState(t.slots, Fg)
  {
    match JobIndexByPid(t.slots, pid)
    case None =>
    case Some(i) => CountUpdate(t.slots, i, Cleared, Fg);
  }

  lemma SetStateFgCount(t: JobTable, i: nat, st: JobState)
    requires i < |t.slots| && st != Fg
    ensures CountState(SetState(t, i, st).slots, Fg) <= CountState(t.slots, Fg)
  {
    CountUpdate(t.slots, i, t.slots[i].(state := st), Fg);
  }

  /** Every job in state FG has pid `p`; vacuous when no job is in the foreground. */
  predicate FgOnly(s: seq<Job>, p: int) {
    forall i :: 0 <= i < |s| && s[i].state == Fg ==> s[i].pid == p
  }

  /**
   * The table as the shell keeps it between commands and while it waits for
   * job `p`: valid, no pid twice, and no foreground job other than `p`.
   */
  predicate Coherent(t: JobTable, p: int) {
    ValidTable(t) && DistinctPids(t.slots) && FgOnly(t.slots, p)
  }

  /** When every foreground job is `p` and fgpid is not `p`, no job is in the foreground. */
  lemma FgOnlyReleased(s: seq<Job>, p: int)
    requires FgOnly(s, p) && FgPidOf(s) != p
    ensures FgPidOf(s) == 0 && forall i :: 0 <= i < |s| ==> s[i].state != Fg
  {
    FindFirst(s, InState(Fg), 0);
  }

  /** Changing one job's state keeps the table coherent, unless it makes a job other than `p` the foreground job. */
  lemma SetStateCoherent(t: JobTable, i: nat, st: JobState, p: int)
    requires Coherent(t, p) && i < |t.slots| && t.slots[i].pid != 0
    requires st == Fg ==> t.slots[i].pid == p
    ensures Coherent(SetState(t, i, st), p)
  {
    SetStateValid(t, i, st);
    var s' := SetState(t, i, st).slots;
    assert forall j :: 0 <= j < |s'| ==> s'[j].pid == t.slots[j].pid;
  }

  /** deletejob keeps the table coherent. */
  lemma DeleteCoherent(t: JobTable, pid: int, p: int)
    requires Coherent(t, p)
    ensures Coherent(AfterDelete(t, pid), p)
  {
    DeleteJobValid(t, pid);
  }

  /** addjob of a pid not yet in the table keeps it coherent, unless it adds a foreground job other than `p`. */
  lemma AddCoherent(t: JobTable, pid: int, st: JobState, cmdline: string, p: int)
    requires Coherent(t, p) && JobIndexByPid(t.slots, pid).None?
    requires st == Fg ==> pid == p
    ensures Coherent(AfterAdd(t, pid, st, cmdline), p)
  {
    AddJobValid(t, pid, st, cmdline);
    AddJobDistinct(t, pid, st, cmdline);
  }

  // ---------------------------------------------------------------------------
  // The mutable state

  /** The shell's globals: `jobs`, `nextjid`, and everything written to stdout or sent with kill so far. */
  class Shell {
    var jobs: array<Job>
    var nextjid: int
    var trace: seq<Effect>

    function View(): JobTable
      reads this, jobs
    {
      JobTable(jobs[..], nextjid)
    }

    ghost predicate Valid()
      reads this, jobs
    {
      jobs.Length == MAXJOBS && ValidTable(View())
    }

    /** The program's static initialisation: every slot zero and nextjid = 1. */
    constructor ()
      ensures Valid() && fresh(jobs) && trace == []
      ensures View() == JobTable(seq(MAXJOBS, _ => Cleared), 1)
    {
      jobs := new Job[MAXJOBS](_ => Cleared);
      nextjid := 1;
      trace := [];
    }

    /** clearjob */
    method ClearJob(i: nat)
      requires i < jobs.Length
      modifies jobs
      ensures jobs[..] == old(jobs[..])[i := Cleared]
    {
      jobs[i] := jobs[i].(pid := 0);
      jobs[i] := jobs[i].(jid := 0);
      jobs[i] := jobs[i].(state := Undef);
      jobs[i] := jobs[i].(cmdline := "");
    }

    /** initjobs: clears every slot; nextjid is left as it was. */
    method InitJobs()
      requires jobs.Length == MAXJOBS && nextjid >= 1
      modifies jobs
      ensures Valid()
      ensures forall i :: 0 <= i < MAXJOBS ==> jobs[i] == Cleared
    {
      for i := 0 to MAXJOBS
        invariant forall k :: 0 <= k < i ==> jobs[k] == Cleared
      {
        ClearJob(i);
      }
    }

    /** maxjid */
    method MaxJid() returns (max: int)
      requires jobs.Length == MAXJOBS
      ensures max == MaxJidOf(jobs[..])
      ensures max >= 0 && forall i :: 0 <= i < MAXJOBS ==> jobs[i].jid <= max
    {
      max := 0;
      for i := 0 to MAXJOBS
        invariant max == MaxJidOf(jobs[..i])
      {
        assert jobs[..i + 1][..i] == jobs[..i];
        if jobs[i].jid > max {
          max := jobs[i].jid;
        }
      }
      assert jobs[..MAXJOBS] == jobs[..];
      MaxJidIsMax(jobs[..]);
    }

    /** addjob */
    method AddJob(pid: int, state: JobState, cmdline: string) returns (ok: bool)
      requires Valid()
      modifies this, jobs
      ensures Valid() && jobs == old(jobs)
      ensures ok == AddSucceeds(old(View()), pid)
      ensures View() == AfterAdd(old(View()), pid, state, cmdline)
      ensures trace == old(trace) + AddJobOutput(old(View()), pid)
    {
      if pid < 1 {
        return false;
      }
      ghost var t := View();
      AddJobValid(t, pid, state, cmdline);
      for i := 0 to MAXJOBS
        invariant Find(t.slots, ByPid(0), 0) == Find(t.slots, ByPid(0), i)
      {
        if jobs[i].pid == 0 {
          assert Find(t.slots, ByPid(0), 0) == Some(i);
          jobs[i] := jobs[i].(pid := pid);
          jobs[i] := jobs[i].(state := state);
          jobs[i] := jobs[i].(jid := nextjid);
          nextjid := nextjid + 1;
          if nextjid > MAXJOBS {
            nextjid := 1;
          }
          jobs[i] := jobs[i].(cmdline := cmdline);
          assert jobs[..] == t.slots[i := Job(pid, t.nextjid, state, cmdline)];
          return true;
        }
      }
      trace := trace + [Out(TooManyJobs)];
      return false;
    }

    /** deletejob */
    method DeleteJob(pid: int) returns (ok: bool)
      requires Valid()
      modifies this, jobs
      ensures Valid() && jobs == old(jobs) && trace == old(trace)
      ensures ok == JobIndexByPid(old(jobs[..]), pid).Some?
      ensures View() == AfterDelete(old(View()), pid)
    {
      DeleteJobValid(View(), pid);
      if pid < 1 {
        return false;
      }
      for i := 0 to MAXJOBS
        invariant Find(jobs[..], ByPid(pid), 0) == Find(jobs[..], ByPid(pid), i)
      {
        if jobs[i].pid == pid {
          ClearJob(i);
          nextjid := MaxJid();
          nextjid := nextjid + 1;
          return true;
        }
      }
      return false;
    }

    /** fgpid */
    method FgPid() returns (pid: int)
      requires Valid()
      ensures pid == FgPidOf(jobs[..])
      ensures pid == 0 <==> forall i :: 0 <= i < MAXJOBS ==> jobs[i].state != Fg
    {
      FindFirst(jobs[..], InState(Fg), 0);
      for i := 0 to MAXJOBS
        invariant Find(jobs[..], InState(Fg), 0) == Find(jobs[..], InState(Fg), i)
      {
        if jobs[i].state == Fg {
          return jobs[i].pid;
        }
      }
      return 0;
    }

    /** getjobpid: the index of the slot the returned pointer points to. */
    method GetJobPid(pid: int) returns (r: Option<nat>)
      requires Valid()
      ensures r == JobIndexByPid(jobs[..], pid)
      ensures r.Some? ==> r.value < MAXJOBS && jobs[r.value].pid == pid && pid >= 1
    {
      if pid < 1 {
        return None;
      }
      for i := 0 to MAXJOBS
        invariant Find(jobs[..], ByPid(pid), 0) == Find(jobs[..], ByPid(pid), i)
      {
        if jobs[i].pid == pid {
          return Some(i);
        }
      }
      return None;
    }

    /** getjobjid */
    method GetJobJid(jid: int) returns (r: Option<nat>)
      requires Valid()
      ensures r == JobIndexByJid(jobs[..], jid)
      ensures r.Some? ==> r.value < MAXJOBS && jobs[r.value].jid == jid && jid >= 1
    {
      if jid < 1 {
        return None;
      }
      for i := 0 to MAXJOBS
        invariant Find(jobs[..], ByJid(jid), 0) == Find(jobs[..], ByJid(jid), i)
      {
        if jobs[i].jid == jid {
          return Some(i);
        }
      }
      return None;
    }

    /** pid2jid */
    method Pid2Jid(pid: int) returns (jid: int)
      requires Valid()
      ensures jid == Pid2JidOf(jobs[..], pid)
      ensures jid == 0 <==> JobIndexByPid(jobs[..], pid).None?
    {
      if pid < 1 {
        return 0;
      }
      for i := 0 to MAXJOBS
        invariant Find(jobs[..], ByPid(pid), 0) == Find(jobs[..], ByPid(pid), i)
      {
        if jobs[i].pid == pid {
          return jobs[i].jid;
        }
      }
      return 0;
    }

    /** listjobs */
    method ListJobs()
      requires Valid()
      modifies `trace
      ensures trace == old(trace) + ListingFrom(jobs[..], 0)
    {
      ghost var out: seq<Effect> := [];
      for i := 0 to MAXJOBS
        invariant trace == old(trace) + out
        invariant ListingFrom(jobs[..], 0) == out + ListingFrom(jobs[..], i)
      {
        var job := jobs[i];
        ghost var lines := if job.pid != 0 then JobLines(i, job) else [];
        assert ListingFrom(jobs[..], i) == lines + ListingFrom(jobs[..], i + 1);
        AppendAssoc(out, lines, ListingFrom(jobs[..], i + 1));
        AppendAssoc(old(trace), out, lines);
        if job.pid != 0 {
          var word: string;
          match job.state {
            case Bg => word := "Running ";
            case Fg => word := "Foreground ";
            case St => word := "Stopped ";
            case Undef =>
              word := "listjobs: Internal error: job[" + Decimal(i) + "].state=" +
                      Decimal(StateCode(job.state)) + " ";
          }
          assert word == StateWord(i, job);
          trace := trace + [Out("[" + Decimal(job.jid) + "] (" + Decimal(job.pid) + ") "), Out(word), Out(job.cmdline)];
        }
        out := out + lines;
      }
    }
  }
}
