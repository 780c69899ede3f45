/** Whole jobs in the shell of shlab-handout/tsh.c: from the command line to the prompt, when nothing
else happens in between. */
module ShellLives {
  import opened JobTable
  import opened Options
  import ParseLine
  import opened Runs
  import opened Shell
  import ShellCommands

  function StepOf(): (System, Event) -> Option<System> { (s: System, e: Event) => Step(s, e) }

  /** The events happen one after another and lead from one state to the other. */
  ghost predicate Leads(s: System, events: seq<Event>, s': System) { Path(StepOf(), s, events, s') }

  lemma LeadsOn(s: System, first: seq<Event>, mid: System, more: seq<Event>, s': System)
    requires Leads(s, first, mid) && Leads(mid, more, s')
    ensures Leads(s, first + more, s')
  {
    PathOn(StepOf(), s, first, mid, more, s');
  }

  lemma LeadsOne(s: System, e: Event, s': System)
    requires Step(s, e) == Some(s')
    ensures Leads(s, [e], s')
  {
    PathOne(StepOf(), s, e, s');
  }

  lemma LeadsThree(s: System, a: Event, s1: System, b: Event, s2: System, c: Event, s': System)
    requires Step(s, a) == Some(s1) && Step(s1, b) == Some(s2) && Step(s2, c) == Some(s')
    ensures Leads(s, [a, b, c], s')
  {
    LeadsOne(s, a, s1);
    LeadsOne(s1, b, s2);
    LeadsOne(s2, c, s');
    LeadsOn(s, [a], s1, [b], s2);
    LeadsOn(s, [a] + [b], s2, [c], s');
    assert [a] + [b] + [c] == [a, b, c];
  }

  // ----- the parts of a job's life

  /** From the fork to the wait or the report: the job stands in the first free slot with the next job
      number, its state and its line. */
  ghost predicate Launched(s: System, line: string, state: State, pid: int, i: nat, s': System) {
    && i < |s.table.jobs|
    && s' == s.(
        main := if state == Fg then Waiting(pid) else Report(pid),
        children := s.children[pid := Running],
        table := Table(s.table.jobs[i := Job(pid, s.table.nextjid, state, line)], NextAfter(s.table.nextjid)))
  }

  lemma Launches(s: System, line: string, state: State, pid: int, i: nat, s': System)
    requires s.main == Blocked(state, line) && !s.inHandler && pid >= 1 && pid !in s.children
    requires ShellCommands.FirstWith(s.table.jobs, i, false, 0) && Launched(s, line, state, pid, i, s')
    ensures Leads(s, [Fork(pid), AddStep, Unmask], s')
  {
    assert First(s.table.jobs, WithPid(0)) == i by {
      assert WithPid(0)(s.table.jobs[i]);
    }
    var s1 := s.(main := Forked(pid, state, line), children := s.children[pid := Running]);
    var s2 := s1.(table := s'.table, main := Added(pid, state));
    LeadsThree(s, Fork(pid), s1, AddStep, s2, Unmask, s');
  }

  /** With no slot free the child runs outside the table. */
  lemma LaunchesUnlisted(s: System, line: string, state: State, pid: int)
    requires s.main == Blocked(state, line) && !s.inHandler && pid >= 1 && pid !in s.children
    requires !Lists(s.table.jobs, 0)
    ensures Leads(s, [Fork(pid), AddStep, Unmask], s.(
      main := if state == Fg then Waiting(pid) else Report(pid),
      children := s.children[pid := Running], refused := s.refused + {pid}))
  {
    assert !CanAdd(s.table, pid);
    var s1 := s.(main := Forked(pid, state, line), children := s.children[pid := Running]);
    var s2 := s1.(main := Added(pid, state), refused := s.refused + {pid});
    LeadsThree(s, Fork(pid), s1, AddStep, s2, Unmask, s2.(main := if state == Fg then Waiting(pid) else Report(pid)));
  }

  /** What is left of a job in slot i when the handler has filed how it ended or stopped; other signals
      than SIGINT and SIGTSTP leave the slot as it is. */
  ghost predicate Filed(s: System, pid: int, i: nat, s': System) {
    && pid in s.children && i < |s.table.jobs|
    && var c, jobs := s.children[pid], s.table.jobs;
    && s'.children == (if c.StopUnseen? then s.children[pid := StopSeen] else s.children - {pid})
    && s'.table.jobs == (if c == Exited || c == Killed(true) then jobs[i := CLEARED_JOB]
                         else if c == StopUnseen(true) then jobs[i := jobs[i].(state := St)]
                         else jobs)
    && s'.table.nextjid == (if c == Exited || c == Killed(true) then MaxJid(s'.table.jobs) + 1 else s.table.nextjid)
    && s'.main == s.main && s'.pending == s.pending && s'.inHandler && s'.raced == s.raced
  }

  /** Reaping a child whose job stands in slot i. */
  lemma ReapFiles(s: System, pid: int, i: nat)
    requires Step(s, Reap(pid)).Some? && pid >= 1 && ShellCommands.FirstWith(s.table.jobs, i, false, pid)
    ensures Filed(s, pid, i, Step(s, Reap(pid)).value)
  {
    ShellCommands.LookupExactly(s.table.jobs, false, pid, i);
  }

  /** Reaping a child without a job takes no slot; its stop or interrupt cannot be filed. */
  lemma ReapUnlisted(s: System, pid: int)
    requires Step(s, Reap(pid)).Some? && pid >= 1 && !Lists(s.table.jobs, pid)
    ensures var c, s' := s.children[pid], Step(s, Reap(pid)).value;
      if c == Killed(true) || c == StopUnseen(true) then s'.main.Crashed?
      else
        && s'.table == s.table && s'.main == s.main
        && s'.children == if c == StopUnseen(false) then s.children[pid := StopSeen] else s.children - {pid}
  {
    LookupLists(s.table.jobs, pid);
  }

  /** do_bgfg after the lookup: the job's process runs, the slot has the new state, and fg waits. */
  lemma Resumes(s: System, i: nat, toFg: bool)
    requires s.main == Found(i, toFg) && !s.inHandler && i < |s.table.jobs|
    ensures var job := s.table.jobs[i];
      var stopped := job.pid in s.children && s.children[job.pid] in {StopUnseen(true), StopUnseen(false), StopSeen};
      Leads(s, [ReadPid, SendCont, MarkState], s.(
        main := if toFg then Waiting(job.pid) else Reading,
        children := if stopped then s.children[job.pid := Running] else s.children,
        table := s.table.(jobs := s.table.jobs[i := job.(state := if toFg then Fg else Bg)]),
        raced := s.raced || (toFg && job.pid == 0)))
  {
    var job := s.table.jobs[i];
    var stopped := job.pid in s.children && (s.children[job.pid].StopUnseen? || s.children[job.pid].StopSeen?);
    var s1 := s.(main := Continue(i, job.pid, toFg));
    var s2 := s1.(
      main := Mark(i, job.pid, toFg),
      children := if stopped then s.children[job.pid := Running] else s.children);
    LeadsThree(s, ReadPid, s1, SendCont, s2, MarkState, s2.(
      main := if toFg then Waiting(job.pid) else Reading,
      table := s.table.(jobs := s.table.jobs[i := job.(state := if toFg then Fg else Bg)]),
      raced := s.raced || (toFg && job.pid == 0)));
  }

  // ----- what becomes of a child

  predicate Ended(c: Child) { c.Exited? || c.Killed? }

  /** A running child can end or stop, a stopped one can be killed or go on, and one that has ended is
      only waited for. */
  lemma ChildMayExactly(from: Child, to: Child)
    ensures ChildMay(from, to) <==>
      && !Ended(from)
      && (Ended(to) || to.StopUnseen? || to == Running)
      && (from == Running ==> to != Running)
      && (from != Running ==> to != Exited && !to.StopUnseen?)
  {
  }

  /** A child that has ended stays as it is until it is reaped, in every run. */
  lemma RunEndedStays(run: seq<System>, i: nat, pid: int)
    requires IsRun(run) && i + 1 < |run| && pid in run[i].children && Ended(run[i].children[pid])
    ensures pid in run[i + 1].children ==> run[i + 1].children[pid] == run[i].children[pid]
  {
    assert Next(run[i], run[i + 1]);
    var e :| Step(run[i], e) == Some(run[i + 1]);
    EndedStays(run[i], e, pid);
  }

  lemma EndedStays(s: System, e: Event, pid: int)
    requires Step(s, e).Some? && pid in s.children && Ended(s.children[pid])
    ensures pid in Step(s, e).value.children ==> Step(s, e).value.children[pid] == s.children[pid]
  {
    match e
    case Command(line) => CommandChangesMain(s, line);
    case _ =>
  }

  // ----- when the handler runs

  /** Between the two sigprocmask calls of eval the handler cannot start, and a pending signal starts it
      at any other step. */
  lemma HandlerStartsExactly(s: System)
    ensures Step(s, HandlerEnter).Some? <==>
      && s.pending && !s.inHandler
      && (s.main.Reading? || s.main.Report? || s.main.Waiting? || s.main.Found? || s.main.Continue? || s.main.Mark?)
  {
  }

  /** In no run does the handler run between fork and addjob, so that it cannot delete a job before it is
      added. */
  lemma {:induction false} RunMasked(run: seq<System>, i: nat)
    requires IsRun(run) && i < |run| && run[i].inHandler
    ensures !run[i].main.Blocked? && !run[i].main.Forked? && !run[i].main.Added?
  {
    if i > 0 {
      assert Next(run[i - 1], run[i - 1 + 1]);
      var e :| Step(run[i - 1], e) == Some(run[i]);
      if run[i - 1].inHandler {
        RunMasked(run, i - 1);
      }
      MaskKept(run[i - 1], e);
    }
  }

  predicate Unmasked(m: Main) { !m.Blocked? && !m.Forked? && !m.Added? }

  lemma MaskKept(s: System, e: Event)
    requires Step(s, e).Some? && (s.inHandler ==> Unmasked(s.main)) && Step(s, e).value.inHandler
    ensures Unmasked(Step(s, e).value.main)
  {
    match e
    case Command(line) => CommandChangesMain(s, line);
    case _ =>
  }

  // ----- a job in the foreground

  /** The prompt, with nothing going on and slot i the first free one. */
  ghost predicate AtPrompt(s: System, i: nat) {
    && s.main.Reading? && !s.inHandler && !s.pending && NothingToReap(s.children)
    && ShellCommands.FirstWith(s.table.jobs, i, false, 0) && s.table.jobs[i] == CLEARED_JOB
    && (forall k :: 0 <= k < |s.table.jobs| ==> s.table.jobs[k].state != Fg)
  }

  /** A process number that neither a child nor a job has. */
  ghost predicate NewPid(s: System, pid: int) {
    pid >= 1 && pid !in s.children && pid !in s.refused && !Lists(s.table.jobs, pid)
  }

  /** The shell waits for a child that it has just put into the foreground, in slot i. */
  function InFront(s: System, line: string, pid: int, i: nat, child: Child): System
    requires i < |s.table.jobs|
  {
    s.(main := Waiting(pid), children := s.children[pid := child],
       table := Table(s.table.jobs[i := Job(pid, s.table.nextjid, Fg, line)], NextAfter(s.table.nextjid)))
  }

  lemma FrontIsFirst(s: System, line: string, pid: int, i: nat, child: Child)
    requires AtPrompt(s, i) && NewPid(s, pid)
    ensures var jobs := InFront(s, line, pid, i, child).table.jobs;
      ShellCommands.FirstWith(jobs, i, false, pid) && FgPid(jobs) == pid
  {
    var jobs := InFront(s, line, pid, i, child).table.jobs;
    assert InForeground()(jobs[i]);
    forall k | 0 <= k < |jobs| && k != i ensures !InForeground()(jobs[k]) && jobs[k].pid != pid {
      assert jobs[k] == s.table.jobs[k];
    }
  }

  /** A command that is not built in brings a job to the foreground, and the shell waits: it cannot go
      on while the job is there. */
  lemma ForegroundStarts(s: System, line: string, p: ParseLine.Parsed, pid: int, i: nat)
    requires AtPrompt(s, i) && NewPid(s, pid) && line != "" && p == ParseLine.Parse(line)
    requires p.args != [] && !ShellCommands.BuiltIn(p.args[0]) && !p.bg
    ensures Leads(s, [Command(line), Fork(pid), AddStep, Unmask], InFront(s, line, pid, i, Running))
    ensures Step(InFront(s, line, pid, i, Running), WaitCheck) == None
  {
    var s1 := s.(main := Blocked(Fg, line));
    ShellCommands.OthersExactly(s, line, p);
    LeadsOne(s, Command(line), s1);
    Launches(s1, line, Fg, pid, i, InFront(s, line, pid, i, Running));
    LeadsOn(s, [Command(line)], s1, [Fork(pid), AddStep, Unmask], InFront(s, line, pid, i, Running));
    assert [Command(line)] + [Fork(pid), AddStep, Unmask] == [Command(line), Fork(pid), AddStep, Unmask];
    FrontIsFirst(s, line, pid, i, Running);
  }

  /** The handler's run for one child, and the wait that ends after it. */
  function EndEvents(pid: int, to: Child): seq<Event> {
    [ChildChange(pid, to), HandlerEnter, Reap(pid)] + [HandlerExit, WaitCheck]
  }

  lemma SignalArrives(s: System, pid: int, to: Child)
    requires s.main.Waiting? && !s.inHandler && pid in s.children && s.children[pid] == Running && Reportable(to)
    ensures Step(s, ChildChange(pid, to)) == Some(s.(children := s.children[pid := to], pending := true))
    ensures Step(s.(children := s.children[pid := to], pending := true), HandlerEnter)
      == Some(s.(children := s.children[pid := to], pending := false, inHandler := true))
  {
  }

  lemma ReapCan(s: System, pid: int)
    requires s.main.Waiting? && s.inHandler && pid in s.children && Reportable(s.children[pid])
    ensures Step(s, Reap(pid)).Some?
  {
  }

  lemma HandlerRuns(s: System, line: string, pid: int, i: nat, to: Child)
    requires AtPrompt(s, i) && NewPid(s, pid) && Reportable(to)
    ensures var front := InFront(s, line, pid, i, to).(inHandler := true);
      && Step(front, Reap(pid)).Some? && Filed(front, pid, i, Step(front, Reap(pid)).value)
      && Leads(InFront(s, line, pid, i, Running), [ChildChange(pid, to), HandlerEnter, Reap(pid)],
               Step(front, Reap(pid)).value)
  {
    var front := InFront(s, line, pid, i, to).(inHandler := true);
    FrontIsFirst(s, line, pid, i, to);
    ReapCan(front, pid);
    ReapFiles(front, pid, i);
    var s0 := InFront(s, line, pid, i, Running);
    var s1 := InFront(s, line, pid, i, to).(pending := true);
    assert s.children[pid := Running][pid := to] == s.children[pid := to];
    SignalArrives(s0, pid, to);
    LeadsThree(s0, ChildChange(pid, to), s1, HandlerEnter, front, Reap(pid), Step(front, Reap(pid)).value);
  }

  lemma HandlerEnds(s: System)
    requires s.inHandler && s.main.Waiting? && NothingToReap(s.children)
    requires forall k :: 0 <= k < |s.table.jobs| ==> s.table.jobs[k].state != Fg
    requires s.main.pid != 0
    ensures Leads(s, [HandlerExit, WaitCheck], s.(inHandler := false, main := Reading))
  {
    var s1 := s.(inHandler := false);
    LeadsOne(s, HandlerExit, s1);
    LeadsOne(s1, WaitCheck, s1.(main := Reading));
    LeadsOn(s, [HandlerExit], s1, [WaitCheck], s1.(main := Reading));
    assert [HandlerExit] + [WaitCheck] == [HandlerExit, WaitCheck];
  }

  lemma WaitEnds(s0: System, pid: int, to: Child, s: System)
    requires Leads(s0, [ChildChange(pid, to), HandlerEnter, Reap(pid)], s)
    requires s.inHandler && s.main.Waiting? && NothingToReap(s.children) && s.main.pid != 0
    requires forall k :: 0 <= k < |s.table.jobs| ==> s.table.jobs[k].state != Fg
    ensures Leads(s0, EndEvents(pid, to), s.(inHandler := false, main := Reading))
  {
    HandlerEnds(s);
    LeadsOn(s0, [ChildChange(pid, to), HandlerEnter, Reap(pid)], s,
            [HandlerExit, WaitCheck], s.(inHandler := false, main := Reading));
  }

  lemma EndedIsAsBefore(s: System, line: string, pid: int, i: nat, to: Child, filed: System)
    requires AtPrompt(s, i) && NewPid(s, pid) && (to == Exited || to == Killed(true))
    requires Step(InFront(s, line, pid, i, to).(inHandler := true), Reap(pid)) == Some(filed)
    requires Filed(InFront(s, line, pid, i, to).(inHandler := true), pid, i, filed)
    ensures filed == s.(main := Waiting(pid), inHandler := true,
      table := Table(s.table.jobs, MaxJid(s.table.jobs) + 1))
  {
    assert filed.table.jobs == s.table.jobs;
    assert filed.children == s.children;
    RefusedKept(InFront(s, line, pid, i, to).(inHandler := true), pid);
  }

  lemma RefusedKept(s: System, pid: int)
    requires Step(s, Reap(pid)).Some? && (s.children[pid] == Exited || s.children[pid] == Killed(true))
    requires pid !in s.refused && Lists(s.table.jobs, pid) && pid >= 1
    ensures Step(s, Reap(pid)).value.refused == s.refused && Step(s, Reap(pid)).value.stale == s.stale
  {
    LookupLists(s.table.jobs, pid);
    assert s.refused - {pid} == s.refused;
  }

  lemma ForegroundEnds(s: System, line: string, pid: int, i: nat, to: Child)
    requires AtPrompt(s, i) && NewPid(s, pid) && (to == Exited || to == Killed(true))
    ensures Leads(InFront(s, line, pid, i, Running), EndEvents(pid, to),
                  s.(table := Table(s.table.jobs, MaxJid(s.table.jobs) + 1)))
  {
    HandlerRuns(s, line, pid, i, to);
    var front := InFront(s, line, pid, i, to).(inHandler := true);
    var filed := Step(front, Reap(pid)).value;
    EndedIsAsBefore(s, line, pid, i, to, filed);
    WaitEnds(InFront(s, line, pid, i, Running), pid, to, filed);
  }

  /** From the command line until the job exits, or SIGINT kills it: the shell is as it was, at its prompt,
      and the next job number is one past the largest in use. */
  lemma ForegroundLife(s: System, line: string, p: ParseLine.Parsed, pid: int, i: nat, to: Child)
    requires AtPrompt(s, i) && NewPid(s, pid) && line != "" && p == ParseLine.Parse(line)
    requires p.args != [] && !ShellCommands.BuiltIn(p.args[0]) && !p.bg
    requires to == Exited || to == Killed(true)
    ensures Leads(s, [Command(line), Fork(pid), AddStep, Unmask] + EndEvents(pid, to),
                  s.(table := Table(s.table.jobs, MaxJid(s.table.jobs) + 1)))
  {
    ForegroundStarts(s, line, p, pid, i);
    ForegroundEnds(s, line, pid, i, to);
    LeadsOn(s, [Command(line), Fork(pid), AddStep, Unmask], InFront(s, line, pid, i, Running), EndEvents(pid, to),
            s.(table := Table(s.table.jobs, MaxJid(s.table.jobs) + 1)));
  }

  /** A job that SIGTSTP stops in the foreground stays in its slot, stopped, and the shell is back at its
      prompt. */
  lemma ForegroundStops(s: System, line: string, pid: int, i: nat)
    requires AtPrompt(s, i) && NewPid(s, pid)
    ensures Leads(InFront(s, line, pid, i, Running), EndEvents(pid, StopUnseen(true)),
      s.(children := s.children[pid := StopSeen],
         table := Table(s.table.jobs[i := Job(pid, s.table.nextjid, St, line)], NextAfter(s.table.nextjid))))
  {
    HandlerRuns(s, line, pid, i, StopUnseen(true));
    var front := InFront(s, line, pid, i, StopUnseen(true)).(inHandler := true);
    var filed := Step(front, Reap(pid)).value;
    assert filed.table.jobs == s.table.jobs[i := Job(pid, s.table.nextjid, St, line)];
    assert filed.children == s.children[pid := StopSeen];
    WaitEnds(InFront(s, line, pid, i, Running), pid, StopUnseen(true), filed);
  }
}
