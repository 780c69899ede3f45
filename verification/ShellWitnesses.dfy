/** Runs of the shell in shlab-handout/tsh.c that show which changes of a job occur.

Each run is built from the start event by event, with one job, process 7, in slot 0; a change that no
run shows is ruled out by the invariants, so that the two together say exactly which ones occur. */
module ShellWitnesses {
  import opened JobTable
  import opened Options
  import ParseLine
  import Sio
  import opened Shell
  import opened ShellRuns

  // ----- runs that show what can happen

  ghost predicate Reachable(s: System) {
    exists run :: IsRun(run) && run[|run| - 1] == s
  }

  lemma StepReaches(s: System, e: Event)
    requires Reachable(s) && Step(s, e).Some?
    ensures Reachable(Step(s, e).value)
  {
    var run :| IsRun(run) && run[|run| - 1] == s;
    var longer := run + [Step(s, e).value];
    forall i | 0 <= i < |longer| - 1
      ensures Next(longer[i], longer[i + 1])
    {
      if i < |run| - 1 {
        assert Next(run[i], run[i + 1]);
      } else {
        assert Step(longer[i], e) == Some(longer[i + 1]);
      }
    }
    assert IsRun(longer);
  }

  /** In some run, a job that stays in its slot goes from one state to another in one step; without the
      race before or in that step, unless `raced` allows it. */
  ghost predicate Occurs(from: State, to: State, raced: bool) {
    exists s, e, k: nat :: ChangesState(s, e, k, from, to, raced)
  }

  ghost predicate ChangesState(s: System, e: Event, k: nat, from: State, to: State, raced: bool) {
    && from != to && Reachable(s) && Step(s, e).Some? && k < MAXJOBS
    && var s' := Step(s, e).value;
    && (s'.raced ==> raced)
    && |s.table.jobs| == |s'.table.jobs| == MAXJOBS
    && Live(s.table.jobs[k]) && s'.table.jobs[k].pid == s.table.jobs[k].pid
    && s.table.jobs[k].state == from && s'.table.jobs[k].state == to
  }

  lemma Goes(s: System, e: Event, s': System)
    requires Reachable(s) && Step(s, e) == Some(s')
    ensures Reachable(s')
  {
    StepReaches(s, e);
  }

  /** A line that starts a job, in the background or not. */
  function JobLine(bg: bool): string {
    ParseLine.Line(0,
      if bg then [ParseLine.Piece("a", false, 1), ParseLine.Piece("&", false, 0)]
      else [ParseLine.Piece("a", false, 0)])
  }

  lemma JobLineParses(bg: bool)
    ensures JobLine(bg) != "" && ParseLine.Parse(JobLine(bg)) == ParseLine.Parsed(["a"], bg)
  {
    var a, amp := ParseLine.Piece("a", false, 1), ParseLine.Piece("&", false, 0);
    if bg {
      ParseLine.ParseUndoesTyping(0, [a, amp]);
      assert ParseLine.Args([a, amp]) == ["a", "&"] && ["a", "&"][..1] == ["a"];
    } else {
      ParseLine.ParseUndoesTyping(0, [a.(gap := 0)]);
      assert ParseLine.Args([a.(gap := 0)]) == ["a"];
    }
  }

  lemma JobTyped(s: System, bg: bool)
    requires Reachable(s) && s.main.Reading? && !s.inHandler
    ensures Reachable(s.(main := Blocked(if bg then Bg else Fg, JobLine(bg))))
  {
    JobLineParses(bg);
    JobObeyed(s, bg, JobLine(bg), ParseLine.Parse(JobLine(bg)));
    Goes(s, Command(JobLine(bg)), s.(main := Blocked(if bg then Bg else Fg, JobLine(bg))));
  }

  lemma JobObeyed(s: System, bg: bool, line: string, p: ParseLine.Parsed)
    requires p == ParseLine.Parsed(["a"], bg)
    ensures Obey(s, line, p) == s.(main := Blocked(if bg then Bg else Fg, line))
  {
  }

  /** The command fg or bg with a process number of one digit. */
  function ResumeLine(toFg: bool, digit: char): string {
    ParseLine.Line(0,
      [ParseLine.Piece(if toFg then "fg" else "bg", false, 1), ParseLine.Piece([digit], false, 0)])
  }

  lemma ResumeLineParses(toFg: bool, digit: char)
    requires '1' <= digit <= '9'
    ensures ResumeLine(toFg, digit) != ""
    ensures ParseLine.Parse(ResumeLine(toFg, digit))
      == ParseLine.Parsed([if toFg then "fg" else "bg", [digit]], false)
  {
    var verb := if toFg then "fg" else "bg";
    var pieces := [ParseLine.Piece(verb, false, 1), ParseLine.Piece([digit], false, 0)];
    ParseLine.ParseUndoesTyping(0, pieces);
    assert ParseLine.Args(pieces) == [verb, [digit]];
  }

  lemma ResumeObeyed(s: System, line: string, p: ParseLine.Parsed, toFg: bool, digit: char)
    requires '1' <= digit <= '9' && p == ParseLine.Parsed([if toFg then "fg" else "bg", [digit]], false)
    ensures Obey(s, line, p) == FoundJob(s, GetJobPid(s.table.jobs, digit as int - '0' as int), toFg)
  {
    assert [digit][..0] == "" && Sio.Value("", 10) == 0;
    assert Sio.Value([digit], 10) == Sio.DigitValue(digit);
    assert p.args[0] == if toFg then "fg" else "bg";
  }

  /** Looking a job up, up to where its process number is read. */
  lemma ResumeTyped(s: System, digit: char, i: nat, toFg: bool)
    requires Reachable(s) && s.main.Reading? && !s.inHandler && '1' <= digit <= '9'
    requires GetJobPid(s.table.jobs, digit as int - '0' as int) == Some(i)
    ensures Reachable(s.(main := Found(i, toFg)))
  {
    var line := ResumeLine(toFg, digit);
    ResumeLineParses(toFg, digit);
    ResumeObeyed(s, line, ParseLine.Parse(line), toFg, digit);
    Goes(s, Command(line), s.(main := Found(i, toFg)));
  }

  lemma ResumeRead(s: System, i: nat, toFg: bool)
    requires Reachable(s) && s.main == Found(i, toFg) && !s.inHandler && i < |s.table.jobs|
    ensures Reachable(s.(main := Continue(i, s.table.jobs[i].pid, toFg)))
  {
    Goes(s, ReadPid, s.(main := Continue(i, s.table.jobs[i].pid, toFg)));
  }

  lemma Resumed(s: System, digit: char, i: nat, toFg: bool)
    requires Reachable(s) && s.main.Reading? && !s.inHandler && '1' <= digit <= '9' && i < |s.table.jobs|
    requires GetJobPid(s.table.jobs, digit as int - '0' as int) == Some(i)
    ensures Reachable(s.(main := Continue(i, s.table.jobs[i].pid, toFg)))
  {
    ResumeTyped(s, digit, i, toFg);
    ResumeRead(s.(main := Found(i, toFg)), i, toFg);
  }

  /** Slot 0 has the job of process 7, and no other slot is marked in the foreground. */
  ghost predicate Slot0(jobs: seq<Job>, state: State) {
    && |jobs| == MAXJOBS && jobs[0].pid == 7 && jobs[0].state == state && state != Undef
    && GetJobPid(jobs, 7) == Some(0) && FgPid(jobs) == (if state == Fg then 7 else 0)
  }

  /** The shell with one child, process 7, and this table. */
  function OneJob(jobs: seq<Job>, main: Main, child: Child, pending: bool, inHandler: bool): System {
    System(Table(jobs, 2), map[7 := child], main, pending, inHandler, {}, {}, false)
  }

  function JobInSlot0(state: State): seq<Job> { EmptyTable().jobs[0 := Job(7, 1, state, JobLine(true))] }

  lemma OneJobLookups(state: State)
    requires state != Undef
    ensures Slot0(JobInSlot0(state), state)
  {
    var jobs := JobInSlot0(state);
    assert WithPid(7)(jobs[0]);
    assert state == Fg ==> InForeground()(jobs[0]);
  }

  lemma StateInSlot0(state: State, to: State)
    ensures var jobs := JobInSlot0(state);
      jobs[0 := jobs[0].(state := to)] == JobInSlot0(to)
  {
  }

  lemma OnlyChild(child: Child, to: Child)
    ensures map[7 := child][7 := to] == map[7 := to]
  {
  }

  lemma ForkAndAdd()
    ensures var s1 := Start().(main := Blocked(Bg, JobLine(true)));
      var s2 := s1.(main := Forked(7, Bg, JobLine(true)), children := map[7 := Running]);
      && Step(s1, Fork(7)) == Some(s2)
      && Step(s2, AddStep) == Some(OneJob(JobInSlot0(Bg), Added(7, Bg), Running, false, false))
  {
    assert WithPid(0)(EmptyTable().jobs[0]);
  }

  lemma OneJobForked()
    ensures Reachable(OneJob(JobInSlot0(Bg), Added(7, Bg), Running, false, false))
  {
    assert IsRun([Start()]) && [Start()][|[Start()]| - 1] == Start();
    ForkAndAdd();
    var s1 := Start().(main := Blocked(Bg, JobLine(true)));
    var s2 := s1.(main := Forked(7, Bg, JobLine(true)), children := map[7 := Running]);
    JobTyped(Start(), true);
    Goes(s1, Fork(7), s2);
    Goes(s2, AddStep, OneJob(JobInSlot0(Bg), Added(7, Bg), Running, false, false));
  }

  lemma OneJobReported(jobs: seq<Job>)
    requires Reachable(OneJob(jobs, Added(7, Bg), Running, false, false)) && Slot0(jobs, Bg)
    ensures Reachable(OneJob(jobs, Reading, Running, false, false))
  {
    Goes(OneJob(jobs, Added(7, Bg), Running, false, false), Unmask, OneJob(jobs, Report(7), Running, false, false));
    Goes(OneJob(jobs, Report(7), Running, false, false), ReportStep, OneJob(jobs, Reading, Running, false, false));
  }

  lemma ChildStops(jobs: seq<Job>, main: Main)
    requires Reachable(OneJob(jobs, main, Running, false, false)) && (main.Reading? || main.Waiting?)
    ensures Reachable(OneJob(jobs, main, StopUnseen(true), false, true))
  {
    var stop := StopUnseen(true);
    OnlyChild(Running, stop);
    Goes(OneJob(jobs, main, Running, false, false), ChildChange(7, stop), OneJob(jobs, main, stop, true, false));
    Goes(OneJob(jobs, main, stop, true, false), HandlerEnter, OneJob(jobs, main, stop, false, true));
  }

  lemma HandlerLeaves(jobs: seq<Job>, main: Main)
    requires Reachable(OneJob(jobs, main, StopSeen, false, true)) && (main.Reading? || main.Waiting?)
    ensures Reachable(OneJob(jobs, main, StopSeen, false, false))
  {
    Goes(OneJob(jobs, main, StopSeen, false, true), HandlerExit, OneJob(jobs, main, StopSeen, false, false));
  }

  /** The running job is stopped and the handler files it. */
  lemma JobStops(main: Main, state: State)
    requires Reachable(OneJob(JobInSlot0(state), main, Running, false, false)) && (main.Reading? || main.Waiting?)
    requires state == Fg || state == Bg
    ensures Reachable(OneJob(JobInSlot0(St), main, StopSeen, false, false)) && Occurs(state, St, false)
  {
    OneJobLookups(state);
    StateInSlot0(state, St);
    ChildStops(JobInSlot0(state), main);
    HandlerFilesStop(JobInSlot0(state), main, state);
    HandlerLeaves(JobInSlot0(St), main);
  }

  lemma HandlerFilesStop(jobs: seq<Job>, main: Main, state: State)
    requires Reachable(OneJob(jobs, main, StopUnseen(true), false, true)) && (main.Reading? || main.Waiting?)
    requires Slot0(jobs, state) && state != St
    ensures Reachable(OneJob(jobs[0 := jobs[0].(state := St)], main, StopSeen, false, true)) && Occurs(state, St, false)
  {
    var s, jobs' := OneJob(jobs, main, StopUnseen(true), false, true), jobs[0 := jobs[0].(state := St)];
    OnlyChild(StopUnseen(true), StopSeen);
    Goes(s, Reap(7), OneJob(jobs', main, StopSeen, false, true));
    assert ChangesState(s, Reap(7), 0, state, St, false);
  }

  lemma JobContinued(jobs: seq<Job>, state: State, child: Child, toFg: bool)
    requires Reachable(OneJob(jobs, Reading, child, false, false)) && Slot0(jobs, state)
    requires child == StopSeen || child == Running
    ensures Reachable(OneJob(jobs, Mark(0, 7, toFg), Running, false, false))
  {
    Resumed(OneJob(jobs, Reading, child, false, false), '7', 0, toFg);
    OnlyChild(child, Running);
    Goes(OneJob(jobs, Continue(0, 7, toFg), child, false, false), SendCont,
         OneJob(jobs, Mark(0, 7, toFg), Running, false, false));
  }

  /** The fg or bg command resumes the job. */
  lemma JobResumes(state: State, child: Child, toFg: bool)
    requires Reachable(OneJob(JobInSlot0(state), Reading, child, false, false))
    requires (state == St && child == StopSeen) || (state == Bg && child == Running && toFg)
    ensures var to := if toFg then Fg else Bg;
      Reachable(OneJob(JobInSlot0(to), if toFg then Waiting(7) else Reading, Running, false, false))
      && Occurs(state, to, false)
  {
    var to := if toFg then Fg else Bg;
    OneJobLookups(state);
    StateInSlot0(state, to);
    JobContinued(JobInSlot0(state), state, child, toFg);
    JobMarked(JobInSlot0(state), state, toFg);
  }

  lemma JobMarked(jobs: seq<Job>, state: State, toFg: bool)
    requires Reachable(OneJob(jobs, Mark(0, 7, toFg), Running, false, false)) && Slot0(jobs, state)
    requires state != if toFg then Fg else Bg
    ensures var to := if toFg then Fg else Bg;
      Reachable(OneJob(jobs[0 := jobs[0].(state := to)], if toFg then Waiting(7) else Reading, Running, false, false))
      && Occurs(state, to, false)
  {
    var s, to := OneJob(jobs, Mark(0, 7, toFg), Running, false, false), if toFg then Fg else Bg;
    Goes(s, MarkState,
         OneJob(jobs[0 := jobs[0].(state := to)], if toFg then Waiting(7) else Reading, Running, false, false));
    assert ChangesState(s, MarkState, 0, state, to, false);
  }

  lemma PromptAfterStop(jobs: seq<Job>)
    requires Reachable(OneJob(jobs, Waiting(7), StopSeen, false, false)) && Slot0(jobs, St)
    ensures Reachable(OneJob(jobs, Reading, StopSeen, false, false))
  {
    Goes(OneJob(jobs, Waiting(7), StopSeen, false, false), WaitCheck, OneJob(jobs, Reading, StopSeen, false, false));
  }

  lemma FiveOccur()
    ensures Occurs(Bg, St, false) && Occurs(St, Fg, false) && Occurs(Fg, St, false)
    ensures Occurs(St, Bg, false) && Occurs(Bg, Fg, false)
  {
    OneJobForked();
    OneJobLookups(Bg);
    OneJobReported(JobInSlot0(Bg));
    JobStops(Reading, Bg);
    JobResumes(St, StopSeen, true);
    JobStops(Waiting(7), Fg);
    OneJobLookups(St);
    PromptAfterStop(JobInSlot0(St));
    JobResumes(St, StopSeen, false);
    JobResumes(Bg, Running, true);
  }

  // ----- the race in do_bgfg: processes 7 and 8, in slots 0 and 1

  function Both(jobs: seq<Job>, nextjid: int, main: Main, children: map<int, Child>, pending: bool,
                inHandler: bool, raced: bool): System
  {
    System(Table(jobs, nextjid), children, main, pending, inHandler, {}, {}, raced)
  }

  function TwoJobs(first: Job, second: State): seq<Job> {
    EmptyTable().jobs[0 := first][1 := Job(8, 2, second, JobLine(true))]
  }

  lemma TwoJobsLookups(first: Job, second: State)
    requires first == Job(7, 1, Bg, JobLine(true)) || !Live(first)
    ensures var jobs := TwoJobs(first, second);
      && |jobs| == MAXJOBS && jobs[0] == first && jobs[1] == Job(8, 2, second, JobLine(true))
      && (Live(first) ==> GetJobPid(jobs, 7) == Some(0))
      && GetJobPid(jobs, 8) == Some(1)
      && (first.state == Fg ==> FgPid(jobs) == first.pid)
  {
    var jobs := TwoJobs(first, second);
    assert WithPid(8)(jobs[1]);
    assert Live(first) ==> WithPid(7)(jobs[0]);
    assert first.state == Fg ==> InForeground()(jobs[0]);
  }

  lemma SecondJobAdded()
    ensures var t := Table(JobInSlot0(Bg), 2);
      AddJob(t, 8, Bg, JobLine(true)) == Table(TwoJobs(Job(7, 1, Bg, JobLine(true)), Bg), 3) && CanAdd(t, 8)
  {
    assert WithPid(0)(JobInSlot0(Bg)[1]);
    assert !WithPid(0)(JobInSlot0(Bg)[0]);
    assert First(JobInSlot0(Bg), WithPid(0)) == 1;
  }

  lemma SecondJobForked()
    requires Reachable(OneJob(JobInSlot0(Bg), Reading, Running, false, false))
    ensures Reachable(Both(TwoJobs(Job(7, 1, Bg, JobLine(true)), Bg), 3, Added(8, Bg),
      map[7 := Running, 8 := Running], false, false, false))
  {
    var jobs, both := JobInSlot0(Bg), map[7 := Running, 8 := Running];
    JobTyped(OneJob(jobs, Reading, Running, false, false), true);
    assert map[7 := Running][8 := Running] == both;
    Goes(OneJob(jobs, Blocked(Bg, JobLine(true)), Running, false, false), Fork(8),
         Both(jobs, 2, Forked(8, Bg, JobLine(true)), both, false, false, false));
    SecondJobAdded();
    Goes(Both(jobs, 2, Forked(8, Bg, JobLine(true)), both, false, false, false), AddStep,
         Both(TwoJobs(Job(7, 1, Bg, JobLine(true)), Bg), 3, Added(8, Bg), both, false, false, false));
  }

  /** The fg command has looked job 7 up when its process exits. */
  lemma JobLookedUp(jobs: seq<Job>)
    requires |jobs| == MAXJOBS && GetJobPid(jobs, 8).Some? && GetJobPid(jobs, 7) == Some(0) && jobs[0].pid == 7
    requires Reachable(Both(jobs, 3, Added(8, Bg), map[7 := Running, 8 := Running], false, false, false))
    ensures Reachable(Both(jobs, 3, Continue(0, 7, true), map[7 := Running, 8 := Running], false, false, false))
  {
    var both := map[7 := Running, 8 := Running];
    Goes(Both(jobs, 3, Added(8, Bg), both, false, false, false), Unmask,
         Both(jobs, 3, Report(8), both, false, false, false));
    Goes(Both(jobs, 3, Report(8), both, false, false, false), ReportStep,
         Both(jobs, 3, Reading, both, false, false, false));
    Resumed(Both(jobs, 3, Reading, both, false, false, false), '7', 0, true);
  }

  lemma ChildExits(jobs: seq<Job>)
    requires Reachable(Both(jobs, 3, Continue(0, 7, true), map[7 := Running, 8 := Running], false, false, false))
    ensures Reachable(Both(jobs, 3, Continue(0, 7, true), map[7 := Exited, 8 := Running], false, true, false))
  {
    var m := Continue(0, 7, true);
    assert map[7 := Running, 8 := Running][7 := Exited] == map[7 := Exited, 8 := Running];
    Goes(Both(jobs, 3, m, map[7 := Running, 8 := Running], false, false, false), ChildChange(7, Exited),
         Both(jobs, 3, m, map[7 := Exited, 8 := Running], true, false, false));
    Goes(Both(jobs, 3, m, map[7 := Exited, 8 := Running], true, false, false), HandlerEnter,
         Both(jobs, 3, m, map[7 := Exited, 8 := Running], false, true, false));
  }

  lemma FirstJobDeleted()
    ensures DeleteJob(Table(TwoJobs(Job(7, 1, Bg, JobLine(true)), Bg), 3), 7) == Table(TwoJobs(CLEARED_JOB, Bg), 3)
  {
    var jobs := TwoJobs(Job(7, 1, Bg, JobLine(true)), Bg);
    assert WithPid(7)(jobs[0]);
    assert jobs[0 := CLEARED_JOB] == TwoJobs(CLEARED_JOB, Bg);
    assert TwoJobs(CLEARED_JOB, Bg)[1].jid == 2;
  }

  /** The handler clears the slot that do_bgfg is about to write to. */
  lemma SlotCleared(jobs: seq<Job>, jobs': seq<Job>)
    requires DeleteJob(Table(jobs, 3), 7) == Table(jobs', 3)
    requires Reachable(Both(jobs, 3, Continue(0, 7, true), map[7 := Exited, 8 := Running], false, true, false))
    ensures Reachable(Both(jobs', 3, Continue(0, 7, true), map[8 := Running], false, false, false))
  {
    var m := Continue(0, 7, true);
    assert map[7 := Exited, 8 := Running] - {7} == map[8 := Running];
    var none: set<int> := {};
    assert none - {7} == none;
    Goes(Both(jobs, 3, m, map[7 := Exited, 8 := Running], false, true, false), Reap(7),
         Both(jobs', 3, m, map[8 := Running], false, true, false));
    Goes(Both(jobs', 3, m, map[8 := Running], false, true, false), HandlerExit,
         Both(jobs', 3, m, map[8 := Running], false, false, false));
  }

  lemma ContinueSent(jobs: seq<Job>, slot: nat, pid: int, raced: bool)
    requires Reachable(Both(jobs, 3, Continue(slot, pid, true), map[8 := Running], false, false, raced))
    ensures Reachable(Both(jobs, 3, Mark(slot, pid, true), map[8 := Running], false, false, raced))
  {
    Goes(Both(jobs, 3, Continue(slot, pid, true), map[8 := Running], false, false, raced), SendCont,
         Both(jobs, 3, Mark(slot, pid, true), map[8 := Running], false, false, raced));
  }

  /** do_bgfg marks a slot in the foreground, and waitfg returns at once because the first slot so
      marked belongs to no process. */
  lemma MarkedAndBack(jobs: seq<Job>, slot: nat, pid: int, raced: bool)
    requires |jobs| == MAXJOBS && slot < MAXJOBS && pid == 7 + slot
    requires FgPid(jobs[slot := jobs[slot].(state := Fg)]) == 0
    requires Reachable(Both(jobs, 3, Continue(slot, pid, true), map[8 := Running], false, false, raced))
    ensures Reachable(Both(jobs[slot := jobs[slot].(state := Fg)], 3, Reading, map[8 := Running], false, false,
      raced || jobs[slot].pid == 0))
  {
    var child, marked := map[8 := Running], jobs[slot := jobs[slot].(state := Fg)];
    var r := raced || jobs[slot].pid == 0;
    ContinueSent(jobs, slot, pid, raced);
    Goes(Both(jobs, 3, Mark(slot, pid, true), child, false, false, raced), MarkState,
         Both(marked, 3, Waiting(pid), child, false, false, r));
    Goes(Both(marked, 3, Waiting(pid), child, false, false, r), WaitCheck,
         Both(marked, 3, Reading, child, false, false, r));
  }

  lemma SecondLookedUp(jobs: seq<Job>)
    requires |jobs| == MAXJOBS && GetJobPid(jobs, 8) == Some(1) && jobs[1].pid == 8
    requires Reachable(Both(jobs, 3, Reading, map[8 := Running], false, false, true))
    ensures Reachable(Both(jobs, 3, Continue(1, 8, true), map[8 := Running], false, false, true))
  {
    Resumed(Both(jobs, 3, Reading, map[8 := Running], false, false, true), '8', 1, true);
  }

  const GHOST_FG: Job := Job(0, 0, Fg, "")

  lemma RaceTables()
    ensures var before, ghostly := TwoJobs(CLEARED_JOB, Bg), TwoJobs(GHOST_FG, Bg);
      && before[0 := before[0].(state := Fg)] == ghostly
      && ghostly[1 := ghostly[1].(state := Fg)] == TwoJobs(GHOST_FG, Fg)
  {
    assert TwoJobs(CLEARED_JOB, Bg)[0 := GHOST_FG] == TwoJobs(GHOST_FG, Bg);
    assert TwoJobs(GHOST_FG, Bg)[1 := Job(8, 2, Fg, JobLine(true))] == TwoJobs(GHOST_FG, Fg);
  }

  /** do_bgfg is not masked. If the handler deletes the job between its lookup and its write, a free
      slot stays marked in the foreground; from then on waitfg does not wait, and the shell reads a
      command while the live job 8 is in the foreground. */
  lemma RaceLosesForeground() returns (s: System)
    ensures Reachable(s) && s.main.Reading? && s.stale == {} && s.refused == {}
    ensures s == Both(TwoJobs(GHOST_FG, Fg), 3, Reading, map[8 := Running], false, false, true)
    ensures exists k :: 0 <= k < |s.table.jobs| && IsFg(s.table.jobs[k])
  {
    var j0, j1 := TwoJobs(Job(7, 1, Bg, JobLine(true)), Bg), TwoJobs(CLEARED_JOB, Bg);
    var j2, j3 := TwoJobs(GHOST_FG, Bg), TwoJobs(GHOST_FG, Fg);
    OneJobForked();
    OneJobLookups(Bg);
    OneJobReported(JobInSlot0(Bg));
    SecondJobForked();
    TwoJobsLookups(Job(7, 1, Bg, JobLine(true)), Bg);
    JobLookedUp(j0);
    ChildExits(j0);
    FirstJobDeleted();
    SlotCleared(j0, j1);
    RaceTables();
    TwoJobsLookups(CLEARED_JOB, Bg);
    TwoJobsLookups(GHOST_FG, Bg);
    MarkedAndBack(j1, 0, 7, false);
    SecondLookedUp(j2);
    TwoJobsLookups(GHOST_FG, Fg);
    MarkedAndBack(j2, 1, 8, true);
    s := Both(j3, 3, Reading, map[8 := Running], false, false, true);
    assert IsFg(j3[1]);
  }

  /** After that race the bg command takes the live job 8 from the foreground straight to the
      background. */
  lemma RacedFgToBg()
    ensures Occurs(Fg, Bg, true)
  {
    var s := RaceLosesForeground();
    var jobs := TwoJobs(GHOST_FG, Fg);
    TwoJobsLookups(GHOST_FG, Fg);
    Resumed(s, '8', 1, false);
    BgMarked(jobs);
  }

  lemma BgMarked(jobs: seq<Job>)
    requires |jobs| == MAXJOBS && jobs[1].pid == 8 && jobs[1].state == Fg
    requires Reachable(Both(jobs, 3, Continue(1, 8, false), map[8 := Running], false, false, true))
    ensures Occurs(Fg, Bg, true)
  {
    var marking := Both(jobs, 3, Mark(1, 8, false), map[8 := Running], false, false, true);
    Goes(Both(jobs, 3, Continue(1, 8, false), map[8 := Running], false, false, true), SendCont, marking);
    assert ChangesState(marking, MarkState, 1, Fg, Bg, true);
  }

  lemma OccursOnlyIf(s: System, e: Event, k: nat, from: State, to: State, raced: bool)
    requires ChangesState(s, e, k, from, to, raced)
    ensures MayBecome(from, to) || (raced && from == Fg && to == Bg)
  {
    var run :| IsRun(run) && run[|run| - 1] == s;
    RunInv(run, |run| - 1);
    StepTransitions(s, e, k);
  }

  lemma OccursOnly(from: State, to: State, raced: bool)
    requires Occurs(from, to, raced)
    ensures from != to && (MayBecome(from, to) || (raced && from == Fg && to == Bg))
  {
    var s, e, k: nat :| ChangesState(s, e, k, from, to, raced);
    OccursOnlyIf(s, e, k, from, to, raced);
  }

  lemma OccursAnyway(from: State, to: State, raced: bool)
    requires Occurs(from, to, false)
    ensures Occurs(from, to, raced)
  {
    var s, e, k: nat :| ChangesState(s, e, k, from, to, false);
    assert ChangesState(s, e, k, from, to, raced);
  }

  /** A change from one state to another occurs in some run without the race exactly when it is one of
      the five; in all runs there is one more, from FG straight to BG. */
  lemma TransitionsExactly(from: State, to: State, raced: bool)
    ensures Occurs(from, to, raced) <==> from != to && (MayBecome(from, to) || (raced && from == Fg && to == Bg))
  {
    if Occurs(from, to, raced) {
      OccursOnly(from, to, raced);
    } else if from != to && MayBecome(from, to) {
      FiveOccur();
      OccursAnyway(from, to, raced);
    } else if raced && from == Fg && to == Bg {
      RacedFgToBg();
    }
  }
}
