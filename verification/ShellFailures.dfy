/** Runs of the shell in shlab-handout/tsh.c that reach a crash or a hang. */
module ShellFailures {
  import opened JobTable
  import opened Options
  import ParseLine
  import opened Shell
  import opened ShellRuns
  import opened ShellWitnesses

  // ----- runs that reach a crash or a hang

  /** The only child ends, and the handler starts. */
  lemma ChildEnds(jobs: seq<Job>, main: Main, end: Child)
    requires Reachable(OneJob(jobs, main, Running, false, false)) && (main.Report? || main.Waiting? || main.Found?)
    requires end.Exited? || end.Killed?
    ensures Reachable(OneJob(jobs, main, end, false, true))
  {
    OnlyChild(Running, end);
    Goes(OneJob(jobs, main, Running, false, false), ChildChange(7, end), OneJob(jobs, main, end, true, false));
    Goes(OneJob(jobs, main, end, true, false), HandlerEnter, OneJob(jobs, main, end, false, true));
  }

  /** The shell without children. */
  function NoChild(t: Table, main: Main, inHandler: bool, stale: set<int>): System {
    System(t, map[], main, false, inHandler, {}, stale, false)
  }

  lemma LastChildGone(child: Child)
    ensures map[7 := child] - {7} == map[]
    ensures var none: set<int> := {}; none - {7} == none && none + {7} == {7}
  {
  }

  lemma ExitReaped(jobs: seq<Job>)
    requires Reachable(OneJob(jobs, Report(7), Exited, false, true))
    ensures Reachable(NoChild(DeleteJob(Table(jobs, 2), 7), Report(7), false, {}))
  {
    var t := DeleteJob(Table(jobs, 2), 7);
    LastChildGone(Exited);
    Goes(OneJob(jobs, Report(7), Exited, false, true), Reap(7), NoChild(t, Report(7), true, {}));
    Goes(NoChild(t, Report(7), true, {}), HandlerExit, NoChild(t, Report(7), false, {}));
  }

  lemma OnlyJobDeleted()
    ensures GetJobPid(DeleteJob(Table(JobInSlot0(Bg), 2), 7).jobs, 7) == None
  {
    var jobs := JobInSlot0(Bg);
    assert WithPid(7)(jobs[0]);
    var gone := DeleteJob(Table(jobs, 2), 7).jobs;
    assert gone == jobs[0 := CLEARED_JOB];
    assert forall i :: 0 <= i < MAXJOBS ==> gone[i].pid == 0;
    LookupLists(gone, 7);
  }

  lemma NothingReported(t: Table)
    requires Reachable(NoChild(t, Report(7), false, {})) && GetJobPid(t.jobs, 7) == None
    ensures Reachable(NoChild(t, Crashed, false, {}))
  {
    Goes(NoChild(t, Report(7), false, {}), ReportStep, NoChild(t, Crashed, false, {}));
  }

  lemma OneJobUnmasked(jobs: seq<Job>)
    requires Reachable(OneJob(jobs, Added(7, Bg), Running, false, false))
    ensures Reachable(OneJob(jobs, Report(7), Running, false, false))
  {
    Goes(OneJob(jobs, Added(7, Bg), Running, false, false), Unmask, OneJob(jobs, Report(7), Running, false, false));
  }

  /** A background job that exits before it is reported: the shell crashes though the table had room. */
  lemma ReportCrashes() returns (s: System)
    ensures Reachable(s) && s.main.Crashed? && s.refused == {} && s.stale == {}
  {
    var jobs := JobInSlot0(Bg);
    var t := DeleteJob(Table(jobs, 2), 7);
    OneJobForked();
    OneJobUnmasked(jobs);
    ChildEnds(jobs, Report(7), Exited);
    ExitReaped(jobs);
    OnlyJobDeleted();
    NothingReported(t);
    s := NoChild(t, Crashed, false, {});
  }

  lemma KillReaped(jobs: seq<Job>)
    requires Reachable(OneJob(jobs, Waiting(7), Killed(false), false, true)) && GetJobPid(jobs, 7).Some?
    ensures Reachable(NoChild(Table(jobs, 2), Waiting(7), true, {7}))
  {
    LastChildGone(Killed(false));
    Goes(OneJob(jobs, Waiting(7), Killed(false), false, true), Reap(7), NoChild(Table(jobs, 2), Waiting(7), true, {7}));
  }

  /** A foreground job killed by a signal other than SIGINT: the shell hangs. */
  lemma KillHangs() returns (s: System)
    ensures Reachable(s) && Hung(s)
  {
    var jobs := JobInSlot0(Fg);
    OneJobForked();
    OneJobLookups(Bg);
    OneJobReported(JobInSlot0(Bg));
    JobResumes(Bg, Running, true);
    OneJobLookups(Fg);
    ChildEnds(jobs, Waiting(7), Killed(false));
    KillReaped(jobs);
    s := NoChild(Table(jobs, 2), Waiting(7), true, {7});
  }

  // ----- a full table

  function Quiet(t: Table, children: map<int, Child>, main: Main): System {
    System(t, children, main, false, false, {}, {}, false)
  }

  lemma JobForked(t: Table, t': Table, children: map<int, Child>, pid: int)
    requires Reachable(Quiet(t, children, Reading)) && pid >= 1 && pid !in children && CanAdd(t, pid)
    requires t' == AddJob(t, pid, Bg, JobLine(true))
    ensures Reachable(Quiet(t', children[pid := Running], Added(pid, Bg)))
  {
    var grown, line := children[pid := Running], JobLine(true);
    JobTyped(Quiet(t, children, Reading), true);
    Goes(Quiet(t, children, Blocked(Bg, line)), Fork(pid), Quiet(t, grown, Forked(pid, Bg, line)));
    Goes(Quiet(t, grown, Forked(pid, Bg, line)), AddStep, Quiet(t', grown, Added(pid, Bg)));
  }

  /** A background job is started and reported. */
  lemma JobStarts(t: Table, t': Table, children: map<int, Child>, pid: int)
    requires Reachable(Quiet(t, children, Reading)) && pid >= 1 && pid !in children && CanAdd(t, pid)
    requires t' == AddJob(t, pid, Bg, JobLine(true)) && GetJobPid(t'.jobs, pid).Some?
    ensures Reachable(Quiet(t', children[pid := Running], Reading))
  {
    var grown := children[pid := Running];
    JobForked(t, t', children, pid);
    Goes(Quiet(t', grown, Added(pid, Bg)), Unmask, Quiet(t', grown, Report(pid)));
    Goes(Quiet(t', grown, Report(pid)), ReportStep, Quiet(t', grown, Reading));
  }

  function RunningTo(k: nat): (children: map<int, Child>)
    ensures forall p :: p in children ==> 100 <= p < 100 + k
  {
    if k == 0 then map[] else RunningTo(k - 1)[99 + k := Running]
  }

  function FilledTable(k: nat): Table
    requires k <= MAXJOBS
  {
    Table(FilledTo(k, JobLine(true)), if k == MAXJOBS then 1 else k + 1)
  }

  lemma {:induction false} TableFills(k: nat)
    requires k <= MAXJOBS
    ensures Reachable(Quiet(FilledTable(k), RunningTo(k), Reading))
  {
    if k == 0 {
      assert IsRun([Start()]) && [Start()][|[Start()]| - 1] == Start();
      assert FilledTo(0, JobLine(true)) == EmptyTable().jobs;
    } else {
      TableFills(k - 1);
      FillOne(k, JobLine(true));
      assert WithPid(99 + k)(FilledTo(k, JobLine(true))[k - 1]);
      JobStarts(FilledTable(k - 1), FilledTable(k), RunningTo(k - 1), 99 + k);
    }
  }

  function Refused(t: Table, children: map<int, Child>, main: Main, pid: int, pending: bool, inHandler: bool): System {
    System(t, children, main, pending, inHandler, {pid}, {}, false)
  }

  /** A foreground job is refused a slot. */
  lemma JobRefused(t: Table, children: map<int, Child>, pid: int)
    requires Reachable(Quiet(t, children, Reading)) && pid >= 1 && pid !in children && !CanAdd(t, pid)
    ensures Reachable(Refused(t, children[pid := Running], Waiting(pid), pid, false, false))
  {
    var grown := children[pid := Running];
    JobTyped(Quiet(t, children, Reading), false);
    Goes(Quiet(t, children, Blocked(Fg, JobLine(false))), Fork(pid), Quiet(t, grown, Forked(pid, Fg, JobLine(false))));
    var none: set<int> := {};
    assert none + {pid} == {pid};
    Goes(Quiet(t, grown, Forked(pid, Fg, JobLine(false))), AddStep,
         Refused(t, grown, Added(pid, Fg), pid, false, false));
    Goes(Refused(t, grown, Added(pid, Fg), pid, false, false), Unmask,
         Refused(t, grown, Waiting(pid), pid, false, false));
  }

  /** The refused job is interrupted, and the handler looks for it in vain. */
  lemma RefusedKilled(t: Table, children: map<int, Child>, pid: int)
    requires Reachable(Refused(t, children, Waiting(pid), pid, false, false))
    requires pid in children && children[pid] == Running && GetJobPid(t.jobs, pid) == None
    ensures Reachable(Refused(t, children[pid := Killed(true)], Crashed, pid, false, true))
  {
    var killed, wait := children[pid := Killed(true)], Waiting(pid);
    Goes(Refused(t, children, wait, pid, false, false), ChildChange(pid, Killed(true)),
         Refused(t, killed, wait, pid, true, false));
    Goes(Refused(t, killed, wait, pid, true, false), HandlerEnter, Refused(t, killed, wait, pid, false, true));
    Goes(Refused(t, killed, wait, pid, false, true), Reap(pid), Refused(t, killed, Crashed, pid, false, true));
  }

  lemma NoRoom(pid: int)
    requires pid >= 116
    ensures !CanAdd(FilledTable(MAXJOBS), pid) && GetJobPid(FilledTo(MAXJOBS, JobLine(true)), pid) == None
  {
    var jobs := FilledTo(MAXJOBS, JobLine(true));
    assert forall i :: 0 <= i < MAXJOBS ==> !WithPid(0)(jobs[i]) && !WithPid(pid)(jobs[i]);
  }

  /** Interrupting a seventeenth job, which found no room, crashes the handler. */
  lemma ReapCrashes() returns (s: System)
    ensures Reachable(s) && s.main.Crashed? && s.inHandler && s.stale == {}
  {
    var t, children := FilledTable(MAXJOBS), RunningTo(MAXJOBS);
    TableFills(MAXJOBS);
    NoRoom(116);
    JobRefused(t, children, 116);
    RefusedKilled(t, children[116 := Running], 116);
    s := Refused(t, children[116 := Running][116 := Killed(true)], Crashed, 116, false, true);
  }

  // ----- lines without arguments, and a lookup that comes too late

  /** Every line without arguments crashes the shell, at the first prompt. */
  lemma NoArgumentsCrash(line: string)
    requires line != "" && ParseLine.Parse(line).args == []
    ensures Reachable(Start().(main := Crashed))
  {
    assert IsRun([Start()]) && [Start()][|[Start()]| - 1] == Start();
    NothingToObey(Start(), line, ParseLine.Parse(line));
    Goes(Start(), Command(line), Start().(main := Crashed));
  }

  lemma NothingToObey(s: System, line: string, p: ParseLine.Parsed)
    requires p.args == []
    ensures Obey(s, line, p) == s.(main := Crashed)
  {
  }

  /** An empty line, a lone & and an open quote are such lines. */
  lemma LinesThatCrash()
    ensures ParseLine.Parse("\n").args == [] && ParseLine.Parse("&\n").args == []
    ensures ParseLine.Parse("'a\n").args == []
    ensures Reachable(Start().(main := Crashed))
  {
    ParseLine.EmptyLines();
    NoArgumentsCrash("&\n");
  }

  /** The handler clears the slot before do_bgfg reads the process number from it: the number is 0. */
  lemma SlotClearedEarly(jobs: seq<Job>)
    requires Reachable(OneJob(jobs, Found(0, true), Exited, false, true)) && |jobs| == MAXJOBS
    requires DeleteJob(Table(jobs, 2), 7).jobs[0] == CLEARED_JOB && |DeleteJob(Table(jobs, 2), 7).jobs| == MAXJOBS
    ensures var t := DeleteJob(Table(jobs, 2), 7);
      Reachable(NoChild(t, Continue(0, 0, true), false, {}))
  {
    var t := DeleteJob(Table(jobs, 2), 7);
    LastChildGone(Exited);
    Goes(OneJob(jobs, Found(0, true), Exited, false, true), Reap(7), NoChild(t, Found(0, true), true, {}));
    Goes(NoChild(t, Found(0, true), true, {}), HandlerExit, NoChild(t, Found(0, true), false, {}));
    Goes(NoChild(t, Found(0, true), false, {}), ReadPid, NoChild(t, Continue(0, 0, true), false, {}));
  }

  lemma ClearedMarked(t: Table)
    requires Reachable(NoChild(t, Continue(0, 0, true), false, {})) && |t.jobs| == MAXJOBS
    requires t.jobs[0] == CLEARED_JOB
    ensures var marked := t.(jobs := t.jobs[0 := GHOST_FG]);
      Reachable(NoChild(marked, Waiting(0), false, {}).(raced := true))
  {
    var marked := t.(jobs := t.jobs[0 := GHOST_FG]);
    Goes(NoChild(t, Continue(0, 0, true), false, {}), SendCont, NoChild(t, Mark(0, 0, true), false, {}));
    Goes(NoChild(t, Mark(0, 0, true), false, {}), MarkState, NoChild(marked, Waiting(0), false, {}).(raced := true));
  }

  /** The shell then waits for process 0, which is the foreground job of a table whose free slot is
      marked so: it hangs. */
  lemma LateLookupHangs() returns (s: System)
    ensures Reachable(s) && Hung(s) && s.stale == {} && s.refused == {} && s.children == map[]
  {
    var jobs := JobInSlot0(Bg);
    var t := DeleteJob(Table(jobs, 2), 7);
    OneJobForked();
    OneJobLookups(Bg);
    OneJobReported(jobs);
    ResumeTyped(OneJob(jobs, Reading, Running, false, false), '7', 0, true);
    ChildEnds(jobs, Found(0, true), Exited);
    assert WithPid(7)(jobs[0]);
    assert t.jobs == jobs[0 := CLEARED_JOB];
    SlotClearedEarly(jobs);
    ClearedMarked(t);
    var marked := t.(jobs := t.jobs[0 := GHOST_FG]);
    s := NoChild(marked, Waiting(0), false, {}).(raced := true);
    assert InForeground()(marked.jobs[0]);
  }
}
