/** What every run of the shell in shlab-handout/tsh.c keeps, and exactly when it goes wrong. */
module ShellRuns {
  import opened JobTable
  import opened Options
  import ParseLine
  import opened Runs
  import opened Shell

  /** In every run in which no child ends in a way the handler does not file, the processes in the
      table are pairwise distinct and are exactly the unreaped children, apart from the one forked but
      not yet added and those for which the table had no room. */
  lemma RunTableIsChildren(run: seq<System>, i: nat)
    requires IsRun(run) && i < |run| && !run[i].main.Crashed? && run[i].stale == {}
    ensures PidsDistinct(run[i].table.jobs) && TableIsChildren(run[i])
  {
    RunInv(run, i);
  }

  lemma RunNext(run: seq<System>, i: nat)
    requires IsRun(run) && 0 < i < |run|
    ensures Next(run[i - 1], run[i])
  {
    assert Next(run[i - 1], run[i - 1 + 1]);
  }

  /** The table is the children: distinct processes, and exactly the unreaped ones. */
  ghost predicate TableGood(s: System) {
    PidsDistinct(s.table.jobs) && TableIsChildren(s)
  }

  lemma StaleNext(s: System, s': System)
    requires Inv(s) && Next(s, s') && s.stale == {} && s'.stale != {}
    ensures !s'.main.Crashed? && !TableGood(s')
  {
    var e :| Step(s, e) == Some(s');
    StaleStays(s, e);
    LookupLists(s.table.jobs, e.pid);
    ReapKeepsTableExactly(s, e.pid);
  }

  /** Where a stale entry is recorded, the table is wrong. */
  lemma StaleFrom(run: seq<System>, i: nat) returns (j: nat)
    requires IsRun(run) && i < |run| && run[i].stale != {}
    ensures j <= i && !run[j].main.Crashed? && !TableGood(run[j])
  {
    var flags := seq(|run|, k requires 0 <= k < |run| => run[k].stale != {});
    var before := SetAt(flags, i);
    j := before + 1;
    RunInv(run, before);
    RunNext(run, j);
    StaleNext(run[before], run[j]);
  }

  lemma StaleGrows(run: seq<System>, i: nat)
    requires IsRun(run) && 0 < i < |run| && run[i - 1].stale != {}
    ensures run[i].stale != {}
  {
    RunNext(run, i);
    var e :| Step(run[i - 1], e) == Some(run[i]);
    StaleStays(run[i - 1], e);
  }

  lemma NotStaleBefore(run: seq<System>, i: nat, j: nat)
    requires IsRun(run) && i <= j < |run| && run[j].stale == {}
    ensures run[i].stale == {}
  {
    var flags := seq(|run|, k requires 0 <= k < |run| => run[k].stale != {});
    if flags[i] {
      forall k | i <= k < j && flags[k] ensures flags[k + 1] {
        StaleGrows(run, k + 1);
      }
      StaysSet(flags, i, j);
    }
  }

  /** The table is the children throughout a run, up to a crash, exactly when no child in the table ends
      in a way that the handler does not file. */
  lemma RunTableExactly(run: seq<System>, i: nat)
    requires IsRun(run) && i < |run|
    ensures (forall j :: 0 <= j <= i ==> run[j].main.Crashed? || TableGood(run[j])) <==> run[i].stale == {}
  {
    if run[i].stale != {} {
      var j := StaleFrom(run, i);
    } else {
      forall j | 0 <= j <= i ensures run[j].main.Crashed? || TableGood(run[j]) {
        NotStaleBefore(run, j, i);
        RunInv(run, j);
      }
    }
  }

  /** In every run in which the fg command never marks a slot cleared under its hands, at most one job
      is in the foreground, none is when a command is read, and what the SIGINT and SIGTSTP handlers
      signal is the one foreground job; if all endings so far were filed, that is a child that has not
      been reaped. */
  lemma RunForeground(run: seq<System>, i: nat)
    requires IsRun(run) && i < |run| && !run[i].main.Crashed? && !run[i].raced
    ensures var jobs := run[i].table.jobs;
      && (forall k, l :: 0 <= k < |jobs| && 0 <= l < |jobs| && IsFg(jobs[k]) && IsFg(jobs[l]) ==> k == l)
      && (run[i].main.Reading? ==> forall k :: 0 <= k < |jobs| ==> !IsFg(jobs[k]))
      && (forall k :: 0 <= k < |jobs| && IsFg(jobs[k]) ==> FgPid(jobs) == jobs[k].pid)
      && (FgPid(jobs) != 0 ==> exists k :: 0 <= k < |jobs| && IsFg(jobs[k]) && jobs[k].pid == FgPid(jobs))
      && (FgPid(jobs) != 0 && run[i].stale == {} ==> FgPid(jobs) in run[i].children)
  {
    RunInv(run, i);
    var s := run[i];
    var jobs := s.table.jobs;
    forall k | 0 <= k < |jobs| && IsFg(jobs[k])
      ensures FgPid(jobs) == jobs[k].pid
    {
      assert InForeground()(jobs[k]);
    }
    var f := First(jobs, InForeground());
    if f < |jobs| {
      assert IsFg(jobs[f]) && Lists(jobs, jobs[f].pid);
    }
  }

  /** The step that sets `raced` leaves a free slot marked in the foreground. */
  lemma OnlyMarkRaces(s: System, e: Event)
    requires Step(s, e).Some? && !s.raced && Step(s, e).value.raced
    ensures e == MarkState && s.main.Mark?
  {
    match e
    case Command(line) => CommandChangesMain(s, line);
    case _ =>
  }

  lemma RacedNext(s: System, s': System)
    requires Inv(s) && Next(s, s') && !s.raced && s'.raced
    ensures !s'.main.Crashed? && !ForegroundOwned(s')
  {
    var e :| Step(s, e) == Some(s');
    OnlyMarkRaces(s, e);
    MarkBreaksExactly(s);
  }

  lemma RacedNever(run: seq<System>, i: nat)
    requires IsRun(run) && 0 < i < |run| && run[i - 1].raced
    ensures run[i].raced
  {
    RunNext(run, i);
    var e :| Step(run[i - 1], e) == Some(run[i]);
    RacedGrows(run[i - 1], e);
  }

  /** Where the race is recorded, the rule is broken. */
  lemma RacedFrom(run: seq<System>, i: nat) returns (j: nat)
    requires IsRun(run) && i < |run| && run[i].raced
    ensures j <= i && !run[j].main.Crashed? && !ForegroundOwned(run[j])
  {
    var flags := seq(|run|, k requires 0 <= k < |run| => run[k].raced);
    var before := SetAt(flags, i);
    j := before + 1;
    RunInv(run, before);
    RunNext(run, j);
    RacedNext(run[before], run[j]);
  }

  lemma NotRacedBefore(run: seq<System>, i: nat, j: nat)
    requires IsRun(run) && i <= j < |run| && !run[j].raced
    ensures !run[i].raced
  {
    var flags := seq(|run|, k requires 0 <= k < |run| => run[k].raced);
    if flags[i] {
      forall k | i <= k < j && flags[k] ensures flags[k + 1] {
        RacedNever(run, k + 1);
      }
      StaysSet(flags, i, j);
    }
  }

  /** The foreground rule holds throughout a run, up to a crash, exactly when the fg command marks no
      slot that the handler cleared after the lookup. */
  lemma RunForegroundExactly(run: seq<System>, i: nat)
    requires IsRun(run) && i < |run|
    ensures (forall j :: 0 <= j <= i ==> run[j].main.Crashed? || ForegroundOwned(run[j])) <==> !run[i].raced
  {
    if run[i].raced {
      var j := RacedFrom(run, i);
    } else {
      forall j | 0 <= j <= i ensures run[j].main.Crashed? || ForegroundOwned(run[j]) {
        RunInv(run, j);
        NotRacedBefore(run, j, i);
      }
    }
  }

  /** The handler leaves no child waiting to be reported, unless another signal is pending. */
  lemma RunReportsEveryChild(run: seq<System>, i: nat)
    requires IsRun(run) && i < |run| && !run[i].main.Crashed?
    ensures run[i].pending || run[i].inHandler || NothingToReap(run[i].children)
  {
    RunInv(run, i);
  }

  predicate MayBecome(from: State, to: State) {
    || from == to
    || (from == Fg && to == St)
    || (from == Bg && to == St)
    || (from == St && to == Fg)
    || (from == St && to == Bg)
    || (from == Bg && to == Fg)
  }

  /** do_bgfg's bg command writes to a job that is in the foreground. */
  ghost predicate BgOnForeground(s: System, k: nat) {
    s.main.Mark? && !s.main.toFg && s.main.slot == k && k < |s.table.jobs| && s.table.jobs[k].state == Fg
  }

  /** A job that stays in its slot changes state in five ways, or from FG straight to BG when the bg
      command writes to it; that does not occur without the race. */
  lemma RunTransitions(run: seq<System>, i: nat, k: nat)
    requires IsRun(run) && i + 1 < |run| && k < MAXJOBS
    ensures |run[i].table.jobs| == |run[i + 1].table.jobs| == MAXJOBS
    ensures var j, j' := run[i].table.jobs[k], run[i + 1].table.jobs[k];
      Live(j) && j'.pid == j.pid ==>
        && j'.jid == j.jid && j'.cmdline == j.cmdline
        && (MayBecome(j.state, j'.state) || (j.state == Fg && j'.state == Bg))
        && (j.state == Fg && j'.state == Bg ==> BgOnForeground(run[i], k) && run[i].raced)
  {
    RunInv(run, i);
    assert Next(run[i], run[i + 1]);
    var e :| Step(run[i], e) == Some(run[i + 1]);
    StepTransitions(run[i], e, k);
  }

  lemma StepTransitions(s: System, e: Event, k: nat)
    requires k < MAXJOBS && Inv(s) && Step(s, e).Some?
    ensures var s' := Step(s, e).value; |s.table.jobs| == |s'.table.jobs| == MAXJOBS
    ensures var j, j' := s.table.jobs[k], Step(s, e).value.table.jobs[k];
      Live(j) && j'.pid == j.pid ==>
        && j'.jid == j.jid && j'.cmdline == j.cmdline
        && (MayBecome(j.state, j'.state) || (j.state == Fg && j'.state == Bg))
        && (j.state == Fg && j'.state == Bg <==> e.MarkState? && BgOnForeground(s, k))
        && (BgOnForeground(s, k) ==> s.raced)
  {
    var slot := StepTouchesOneSlot(s, e);
  }

  // ----- what goes wrong, and exactly when

  /** A step follows a null pointer exactly when the command line has no arguments, eval reports a
      background job that is no longer, or never was, in the table, or the handler files the stop or
      the interrupt of a child that is not in
      the table; if all endings so far were filed, such a child had been refused a slot. */
  lemma CrashExactly(s: System, e: Event)
    requires Inv(s) && Step(s, e).Some?
    ensures Step(s, e).value.main.Crashed? <==>
      || (e.Command? && ParseLine.Parse(e.line).args == [])
      || (e.ReportStep? && !Lists(s.table.jobs, s.main.pid))
      || (e.Reap? && !Lists(s.table.jobs, e.pid)
          && (s.children[e.pid] == Killed(true) || s.children[e.pid] == StopUnseen(true)))
    ensures e.Reap? && s.stale == {} ==> (Lists(s.table.jobs, e.pid) <==> e.pid !in s.refused)
  {
    match e
    case Command(line) => CommandStep(s, line);
    case ReportStep => LookupLists(s.table.jobs, s.main.pid);
    case Reap(pid) => LookupLists(s.table.jobs, pid);
    case _ =>
  }

  /** Reaping keeps the table equal to the children exactly when the handler files the ending: a
      listed child killed by a signal other than SIGINT leaves its job behind. */
  lemma ReapKeepsTableExactly(s: System, pid: int)
    requires PidInv(s) && s.stale == {} && s.inHandler && pid in s.children && Reportable(s.children[pid])
    requires !ReapChild(s, pid).main.Crashed?
    ensures TableIsChildren(ReapChild(s, pid)) <==>
      !(s.children[pid] == Killed(false) && Lists(s.table.jobs, pid))
  {
    ReapKeepsPids(s, pid);
    LookupLists(s.table.jobs, pid);
  }

  /** What fgpid returns stays as it is if its slot does and no other slot is marked. */
  lemma FgPidKept(jobs: seq<Job>, jobs': seq<Job>)
    requires |jobs'| == |jobs| && First(jobs, InForeground()) < |jobs|
    requires jobs'[First(jobs, InForeground())] == jobs[First(jobs, InForeground())]
    requires forall k :: 0 <= k < |jobs| ==> jobs'[k] == jobs[k] || jobs'[k].state != Fg
    ensures FgPid(jobs') == FgPid(jobs) && First(jobs', InForeground()) == First(jobs, InForeground())
  {
    var f := First(jobs, InForeground());
    assert InForeground()(jobs'[f]);
    forall k | 0 <= k < f
      ensures !InForeground()(jobs'[k])
    {
      assert !InForeground()(jobs[k]);
    }
  }

  /** The main loop waits for a process that has been reaped and that the table still has in the
      foreground. */
  ghost predicate Hung(s: System) {
    && s.main.Waiting? && s.main.pid !in s.children
    && |s.table.jobs| == MAXJOBS && First(s.table.jobs, InForeground()) < MAXJOBS
    && FgPid(s.table.jobs) == s.main.pid
  }

  lemma ReapLeavesMain(s: System, pid: int)
    requires Step(s, Reap(pid)).Some?
    ensures var s' := Step(s, Reap(pid)).value;
      && pid in s.children && (s'.main.Crashed? || s'.main == s.main) && s'.children.Keys <= s.children.Keys
  {
  }

  lemma ReapLeavesOthers(s: System, pid: int, slot: nat)
    requires |s.table.jobs| == MAXJOBS && Step(s, Reap(pid)).Some?
    requires slot < MAXJOBS && s.table.jobs[slot].pid != pid
    ensures var jobs' := Step(s, Reap(pid)).value.table.jobs;
      && |jobs'| == MAXJOBS && jobs'[slot] == s.table.jobs[slot]
      && forall k :: 0 <= k < MAXJOBS ==> jobs'[k] == s.table.jobs[k] || jobs'[k].state != Fg
  {
    var touched := StepTouchesOneSlot(s, Reap(pid));
  }

  lemma ReapKeepsHung(s: System, pid: int)
    requires Hung(s) && Step(s, Reap(pid)).Some? && !Step(s, Reap(pid)).value.main.Crashed?
    ensures Step(s, Reap(pid)).value.main == s.main && Hung(Step(s, Reap(pid)).value)
  {
    ReapLeavesMain(s, pid);
    ReapLeavesOthers(s, pid, First(s.table.jobs, InForeground()));
    FgPidKept(s.table.jobs, Step(s, Reap(pid)).value.table.jobs);
  }

  lemma HungStays(s: System, e: Event)
    requires Hung(s) && Step(s, e).Some?
    ensures var s' := Step(s, e).value; s'.main.Crashed? || (s'.main == s.main && Hung(s'))
  {
    if e.Reap? && !Step(s, e).value.main.Crashed? {
      ReapKeepsHung(s, e.pid);
    }
  }

  lemma HungNext(s: System, s': System)
    requires (s.main.Crashed? || Hung(s)) && Next(s, s')
    ensures s'.main.Crashed? || (s'.main == s.main && Hung(s'))
  {
    var e :| Step(s, e) == Some(s');
    if Hung(s) {
      HungStays(s, e);
    }
  }

  /** The stale job of a child killed in the foreground keeps the shell waiting in every later state of
      the run, until a crash if there is one. */
  lemma {:induction false} StaleForegroundHangs(run: seq<System>, i: nat, j: nat)
    requires IsRun(run) && i <= j < |run| && Hung(run[i])
    ensures run[j].main.Crashed? || (run[j].main == run[i].main && Hung(run[j]))
  {
    if i < j {
      StaleForegroundHangs(run, i, j - 1);
      assert Next(run[j - 1], run[j - 1 + 1]);
      HungNext(run[j - 1], run[j]);
    }
  }
}
