/** Job control in shlab-handout/tsh.c: the main loop, the SIGCHLD handler and the kernel's view of
the children, interleaved in any order. */
module Shell {
  // The main loop and the handler share the job table. While the handler runs the main loop stands
  // still, but children go on changing state, and the handler may start between any two steps of the
  // main loop at which SIGCHLD is not blocked. `refused`, `stale` and `raced` only record what has
  // happened: children whose addjob found no free slot, children reaped after an ending that the handler
  // does not file, and whether the fg command has marked a slot that was cleared under its hands.

  import opened JobTable
  import ParseLine
  import Sio
  import opened Options

  /** A child that has not been reaped. A stop is unseen until waitpid has reported it; the flags say
      whether the signal was the one the handler files (SIGTSTP, SIGINT). */
  datatype Child = Running | StopUnseen(tstp: bool) | StopSeen | Exited | Killed(sigint: bool)

  /** Where the main loop stands. Blocked, Forked and Added lie between the two sigprocmask calls of
      eval; Found, Continue and Mark come after the lookup of do_bgfg: the process number is still to
      be read, SIGCONT to be sent, and the state to be written. */
  datatype Main =
    | Reading
    | Blocked(state: State, cmdline: string)
    | Forked(pid: int, state: State, cmdline: string)
    | Added(pid: int, state: State)
    | Report(pid: int)
    | Waiting(pid: int)
    | Found(slot: nat, toFg: bool)
    | Continue(slot: nat, pid: int, toFg: bool)
    | Mark(slot: nat, pid: int, toFg: bool)
    | Quit
    | Crashed

  datatype System = System(
    table: Table, children: map<int, Child>, main: Main, pending: bool, inHandler: bool,
    refused: set<int>, stale: set<int>, raced: bool)

  datatype Event =
    // the main loop
    | Command(line: string)
    | Fork(pid: int)
    | AddStep
    | Unmask
    | ReportStep
    | WaitCheck
    | ReadPid
    | SendCont
    | MarkState
    // the kernel
    | ChildChange(pid: int, to: Child)
    // the SIGCHLD handler
    | HandlerEnter
    | Reap(pid: int)
    | HandlerExit

  predicate Masked(m: Main) { m.Blocked? || m.Forked? || m.Added? }

  predicate MainEvent(e: Event) {
    e.Command? || e.Fork? || e.AddStep? || e.Unmask? || e.ReportStep? || e.WaitCheck?
    || e.ReadPid? || e.SendCont? || e.MarkState?
  }

  predicate Reportable(c: Child) { c.StopUnseen? || c.Exited? || c.Killed? }

  predicate NothingToReap(children: map<int, Child>) {
    forall p :: p in children ==> !Reportable(children[p])
  }

  /** What can become of a child without the shell reaping it. */
  predicate ChildMay(from: Child, to: Child) {
    match from
    case Running => Reportable(to)
    case StopUnseen(_) => to == Running || to.Killed?
    case StopSeen => to == Running || to.Killed?
    case Exited => false
    case Killed(_) => false
  }

  function FoundJob(s: System, slot: Option<nat>, toFg: bool): System {
    match slot
    case None => s
    case Some(i) => s.(main := Found(i, toFg))
  }

  /** isnum. */
  predicate IsNum(text: string) {
    forall i :: 0 <= i < |text| ==> Sio.IsDigit(text[i], 10)
  }

  /** do_bgfg up to the lookup: nothing but a message without an argument that is a process number, or
      a job number after %, or for one that is unknown. */
  function DoBgfg(s: System, args: seq<string>, toFg: bool): System {
    if |args| < 2 then s
    else
      var byJob := args[1] != "" && args[1][0] == '%';
      var digits := if byJob then args[1][1..] else args[1];
      if !IsNum(digits) then s
      else
        var n := Sio.Value(digits, 10);
        FoundJob(s, if byJob then GetJobJid(s.table.jobs, n) else GetJobPid(s.table.jobs, n), toFg)
  }

  /** eval and builtin_cmd: the built-in commands, or a job to be forked. A line without arguments
      leaves argv[0] NULL, and strcmp follows it. */
  function Obey(s: System, line: string, p: ParseLine.Parsed): System {
    if p.args == [] then s.(main := Crashed)
    else if p.args[0] == "quit" then s.(main := Quit)
    else if p.args[0] == "jobs" then s
    else if p.args[0] == "bg" || p.args[0] == "fg" then DoBgfg(s, p.args, p.args[0] == "fg")
    else s.(main := Blocked(if p.bg then Bg else Fg, line))
  }

  /** One round of the handler's waitpid loop; a lookup that yields NULL is dereferenced. */
  function ReapChild(s: System, pid: int): System
    requires pid in s.children
  {
    var gone := s.(children := s.children - {pid}, refused := s.refused - {pid});
    match s.children[pid]
    case Exited => gone.(table := DeleteJob(s.table, pid))
    case Killed(true) =>
      if GetJobPid(s.table.jobs, pid).Some? then gone.(table := DeleteJob(s.table, pid)) else s.(main := Crashed)
    case Killed(false) =>
      if GetJobPid(s.table.jobs, pid).Some? then gone.(stale := s.stale + {pid}) else gone
    case StopUnseen(true) =>
      (match GetJobPid(s.table.jobs, pid)
       case Some(i) => s.(
         table := s.table.(jobs := s.table.jobs[i := s.table.jobs[i].(state := St)]),
         children := s.children[pid := StopSeen])
       case None => s.(main := Crashed))
    case StopUnseen(false) => s.(children := s.children[pid := StopSeen])
    case _ => s
  }

  /** The main loop's step for an event of its own. */
  function MainStep(s: System, e: Event): Option<System>
    requires MainEvent(e)
  {
    match e
    case Command(line) =>
      if s.main.Reading? && line != "" then Some(Obey(s, line, ParseLine.Parse(line))) else None
    case Fork(pid) =>
      if s.main.Blocked? && pid >= 1 && pid !in s.children then
        Some(s.(main := Forked(pid, s.main.state, s.main.cmdline), children := s.children[pid := Running]))
      else None
    case AddStep =>
      if s.main.Forked? then
        Some(s.(
          table := AddJob(s.table, s.main.pid, s.main.state, s.main.cmdline),
          main := Added(s.main.pid, s.main.state),
          refused := if CanAdd(s.table, s.main.pid) then s.refused else s.refused + {s.main.pid}))
      else None
    case Unmask =>
      if s.main.Added? then
        Some(s.(main := if s.main.state == Fg then Waiting(s.main.pid) else Report(s.main.pid)))
      else None
    case ReportStep =>
      if s.main.Report? then
        Some(s.(main := if GetJobPid(s.table.jobs, s.main.pid).Some? then Reading else Crashed))
      else None
    case WaitCheck =>
      if s.main.Waiting? && FgPid(s.table.jobs) != s.main.pid then Some(s.(main := Reading)) else None
    case ReadPid =>
      if s.main.Found? && s.main.slot < |s.table.jobs| then
        Some(s.(main := Continue(s.main.slot, s.table.jobs[s.main.slot].pid, s.main.toFg)))
      else None
    case SendCont =>
      if s.main.Continue? then
        var p := s.main.pid;
        var stopped := p in s.children && (s.children[p].StopUnseen? || s.children[p].StopSeen?);
        Some(s.(
          main := Mark(s.main.slot, p, s.main.toFg),
          children := if stopped then s.children[p := Running] else s.children))
      else None
    case MarkState =>
      if s.main.Mark? && s.main.slot < |s.table.jobs| then
        var job := s.table.jobs[s.main.slot];
        Some(s.(
          table := s.table.(jobs := s.table.jobs[s.main.slot := job.(state := if s.main.toFg then Fg else Bg)]),
          main := if s.main.toFg then Waiting(s.main.pid) else Reading,
          raced := s.raced || (s.main.toFg && job.pid == 0)))
      else None
  }

  /** A child's change of state, or a step of the handler. */
  function SignalStep(s: System, e: Event): Option<System>
    requires !MainEvent(e)
  {
    match e
    case ChildChange(pid, to) =>
      if pid in s.children && ChildMay(s.children[pid], to) then
        Some(s.(children := s.children[pid := to], pending := true))
      else None
    case HandlerEnter =>
      if s.pending && !s.inHandler && !Masked(s.main) then Some(s.(pending := false, inHandler := true)) else None
    case Reap(pid) =>
      if s.inHandler && pid in s.children && Reportable(s.children[pid]) then Some(ReapChild(s, pid)) else None
    case HandlerExit =>
      if s.inHandler && NothingToReap(s.children) then Some(s.(inHandler := false)) else None
  }

  /** The state after an event, or None when the event cannot happen now. */
  function Step(s: System, e: Event): Option<System> {
    if s.main.Crashed? || s.main.Quit? then None
    else if MainEvent(e) then (if s.inHandler then None else MainStep(s, e))
    else SignalStep(s, e)
  }

  ghost predicate Next(s: System, s': System) {
    exists e :: Step(s, e) == Some(s')
  }

  function Start(): System { System(EmptyTable(), map[], Reading, false, false, {}, {}, false) }

  ghost predicate IsRun(run: seq<System>) {
    && |run| > 0 && run[0] == Start()
    && forall i :: 0 <= i < |run| - 1 ==> Next(run[i], run[i + 1])
  }

  // ----- the table against the children

  ghost predicate Lists(jobs: seq<Job>, pid: int) {
    exists i :: 0 <= i < |jobs| && jobs[i].pid == pid
  }

  /** Every slot has a job with a state, or is free and has no number. */
  ghost predicate SlotsShaped(jobs: seq<Job>) {
    && |jobs| == MAXJOBS
    && forall i :: 0 <= i < MAXJOBS ==>
         jobs[i].pid >= 0 && if Live(jobs[i]) then jobs[i].state != Undef else jobs[i].jid == 0
  }

  ghost predicate TableShaped(jobs: seq<Job>) { SlotsShaped(jobs) && PidsDistinct(jobs) }

  /** What the main loop holds on to is a process, and a slot it looked up still has that process or
      was cleared by the handler, perhaps before the process number was read. */
  ghost predicate MainShaped(m: Main, jobs: seq<Job>) {
    match m
    case Blocked(state, _) => state == Fg || state == Bg
    case Forked(pid, state, _) => pid >= 1 && (state == Fg || state == Bg)
    case Added(pid, _) => pid >= 1
    case Report(pid) => pid >= 1
    case Waiting(pid) => pid >= 0
    case Found(slot, _) => slot < |jobs|
    case Continue(slot, pid, _) => pid >= 0 && slot < |jobs| && (jobs[slot].pid == pid || !Live(jobs[slot]))
    case Mark(slot, pid, _) => pid >= 0 && slot < |jobs| && (jobs[slot].pid == pid || !Live(jobs[slot]))
    case _ => true
  }

  /** What holds whatever becomes of the children. */
  ghost predicate Sound(s: System) {
    && SlotsShaped(s.table.jobs) && MainShaped(s.main, s.table.jobs)
    && forall p :: p in s.children ==> p >= 1
  }

  ghost predicate Shaped(s: System) {
    && Sound(s) && PidsDistinct(s.table.jobs)
    && (s.main.Forked? ==> s.main.pid in s.children && s.main.pid !in s.refused)
    && (Masked(s.main) ==> !s.inHandler)
    && s.refused <= s.children.Keys
  }

  /** The processes in the table are exactly the unreaped children, but for the child that is forked
      and not added yet and the children that found no slot. */
  ghost predicate TableIsChildren(s: System) {
    forall p :: p >= 1 ==>
      (Lists(s.table.jobs, p) <==> p in s.children && p !in s.refused && !(s.main.Forked? && s.main.pid == p))
  }

  ghost predicate PidInv(s: System) {
    s.stale == {} ==> Shaped(s) && TableIsChildren(s)
  }

  lemma LookupLists(jobs: seq<Job>, pid: int)
    requires pid >= 1
    ensures GetJobPid(jobs, pid).Some? <==> Lists(jobs, pid)
  {
    if Lists(jobs, pid) {
      var i :| 0 <= i < |jobs| && jobs[i].pid == pid;
      assert WithPid(pid)(jobs[i]);
    }
  }

  lemma SameLists(a: seq<Job>, b: seq<Job>)
    requires |a| == |b| && forall i :: 0 <= i < |a| ==> a[i].pid == b[i].pid
    ensures forall p :: Lists(a, p) <==> Lists(b, p)
  {
  }

  lemma DeleteLists(t: Table, pid: int)
    requires PidsDistinct(t.jobs) && pid >= 1
    ensures var t' := DeleteJob(t, pid);
      && |t'.jobs| == |t.jobs| && PidsDistinct(t'.jobs)
      && (forall i :: 0 <= i < |t.jobs| ==> t'.jobs[i] == if t.jobs[i].pid == pid then CLEARED_JOB else t.jobs[i])
      && (forall p :: p >= 1 ==> (Lists(t'.jobs, p) <==> p != pid && Lists(t.jobs, p)))
  {
    LookupLists(t.jobs, pid);
    var t' := DeleteJob(t, pid);
    if GetJobPid(t.jobs, pid).Some? {
      var slot := GetJobPid(t.jobs, pid).value;
      assert t'.jobs == t.jobs[slot := CLEARED_JOB];
    }
    forall p | p >= 1 && p != pid && Lists(t.jobs, p)
      ensures Lists(t'.jobs, p)
    {
      var i :| 0 <= i < |t.jobs| && t.jobs[i].pid == p;
      assert t'.jobs[i].pid == p;
    }
  }

  lemma AddLists(t: Table, pid: int, state: State, cmdline: string)
    requires TableShaped(t.jobs) && !Lists(t.jobs, pid) && CanAdd(t, pid) && state != Undef
    ensures var t' := AddJob(t, pid, state, cmdline);
      && TableShaped(t'.jobs)
      && (forall p :: p >= 1 ==> (Lists(t'.jobs, p) <==> p == pid || Lists(t.jobs, p)))
  {
    var t', slot := AddJob(t, pid, state, cmdline), First(t.jobs, WithPid(0));
    assert t'.jobs[slot].pid == pid;
    forall p | p >= 1 && Lists(t.jobs, p)
      ensures Lists(t'.jobs, p)
    {
      var i :| 0 <= i < |t.jobs| && t.jobs[i].pid == p;
      assert t'.jobs[i].pid == p;
    }
  }

  lemma DeleteKeepsPids(s: System, pid: int)
    requires Shaped(s) && TableIsChildren(s) && s.inHandler && pid in s.children
    ensures var s' := s.(
        table := DeleteJob(s.table, pid), children := s.children - {pid}, refused := s.refused - {pid});
      Shaped(s') && TableIsChildren(s')
  {
    DeleteLists(s.table, pid);
  }

  lemma StateChangeKeepsPids(s: System, slot: nat, state: State)
    requires Shaped(s) && TableIsChildren(s) && slot < MAXJOBS && state != Undef
    ensures var s' := s.(table := s.table.(jobs := s.table.jobs[slot := s.table.jobs[slot].(state := state)]));
      Shaped(s') && TableIsChildren(s')
  {
    SameLists(s.table.jobs, s.table.jobs[slot := s.table.jobs[slot].(state := state)]);
  }

  /** Only the keys of `children` matter to the table. */
  lemma SameChildrenKeepsPids(s: System, children: map<int, Child>)
    requires Shaped(s) && TableIsChildren(s) && children.Keys == s.children.Keys
    ensures Shaped(s.(children := children)) && TableIsChildren(s.(children := children))
  {
    assert forall p :: p in children <==> p in s.children;
  }

  lemma UnlistedKeepsPids(s: System, pid: int)
    requires Shaped(s) && TableIsChildren(s) && s.inHandler && pid in s.children && !Lists(s.table.jobs, pid)
    ensures var s' := s.(children := s.children - {pid}, refused := s.refused - {pid});
      Shaped(s') && TableIsChildren(s')
  {
  }

  lemma ReapKeepsPids(s: System, pid: int)
    requires Shaped(s) && TableIsChildren(s) && s.inHandler && pid in s.children && Reportable(s.children[pid])
    requires s.stale == {}
    ensures ReapChild(s, pid).main.Crashed? || PidInv(ReapChild(s, pid))
  {
    LookupLists(s.table.jobs, pid);
    match s.children[pid]
    case Exited => DeleteKeepsPids(s, pid);
    case Killed(true) => DeleteKeepsPids(s, pid);
    case Killed(false) =>
      if !Lists(s.table.jobs, pid) { UnlistedKeepsPids(s, pid); }
    case StopUnseen(true) =>
      if GetJobPid(s.table.jobs, pid).Some? {
        var slot := GetJobPid(s.table.jobs, pid).value;
        StateChangeKeepsPids(s, slot, St);
        SameChildrenKeepsPids(
          s.(table := s.table.(jobs := s.table.jobs[slot := s.table.jobs[slot].(state := St)])),
          s.children[pid := StopSeen]);
      }
    case StopUnseen(false) => SameChildrenKeepsPids(s, s.children[pid := StopSeen]);
  }

  lemma AddKeepsPids(s: System)
    requires Shaped(s) && TableIsChildren(s) && s.main.Forked? && s.stale == {}
    ensures PidInv(Step(s, AddStep).value)
  {
    if CanAdd(s.table, s.main.pid) {
      AddLists(s.table, s.main.pid, s.main.state, s.main.cmdline);
    }
  }

  /** Obeying a command line changes nothing but where the main loop stands. */
  lemma ObeyMovesMain(s: System, line: string, p: ParseLine.Parsed)
    requires |s.table.jobs| == MAXJOBS && s.main.Reading?
    ensures var s' := Obey(s, line, p);
      && s' == s.(main := s'.main)
      && (s'.main.Reading? || s'.main.Quit? || s'.main.Crashed?
          || (s'.main.Found? && s'.main.slot < MAXJOBS)
          || (s'.main.Blocked? && (s'.main.state == Fg || s'.main.state == Bg)))
      && (s'.main.Crashed? <==> p.args == [])
  {
  }

  lemma CommandStep(s: System, line: string)
    requires |s.table.jobs| == MAXJOBS && MainStep(s, Command(line)).Some?
    ensures var s' := MainStep(s, Command(line)).value;
      && line != "" && s.main.Reading? && s' == s.(main := s'.main)
      && (s'.main.Reading? || s'.main.Quit? || s'.main.Crashed?
          || (s'.main.Found? && s'.main.slot < MAXJOBS)
          || (s'.main.Blocked? && (s'.main.state == Fg || s'.main.state == Bg)))
      && (s'.main.Crashed? <==> ParseLine.Parse(line).args == [])
  {
    ObeyMovesMain(s, line, ParseLine.Parse(line));
  }

  lemma CommandKeepsPids(s: System, line: string)
    requires Shaped(s) && TableIsChildren(s) && s.stale == {} && !s.inHandler && MainStep(s, Command(line)).Some?
    ensures MainStep(s, Command(line)).value.main.Crashed? || PidInv(MainStep(s, Command(line)).value)
  {
    CommandStep(s, line);
  }

  lemma MainStepKeepsPids(s: System, e: Event)
    requires Shaped(s) && TableIsChildren(s) && s.stale == {}
    requires MainEvent(e) && !s.inHandler && !s.main.Crashed? && MainStep(s, e).Some?
    ensures MainStep(s, e).value.main.Crashed? || PidInv(MainStep(s, e).value)
  {
    match e
    case AddStep => AddKeepsPids(s);
    case MarkState => StateChangeKeepsPids(s, s.main.slot, if s.main.toFg then Fg else Bg);
    case Command(line) => CommandKeepsPids(s, line);
    case Fork(_) => ForkKeepsPids(s, e);
    case _ => OthersKeepPids(s, e);
  }

  lemma ForkKeepsPids(s: System, e: Event)
    requires Shaped(s) && TableIsChildren(s) && s.stale == {} && e.Fork? && MainStep(s, e).Some?
    ensures PidInv(MainStep(s, e).value)
  {
  }

  lemma OthersKeepPids(s: System, e: Event)
    requires Shaped(s) && TableIsChildren(s) && s.stale == {} && !s.inHandler && !s.main.Crashed?
    requires e == Unmask || e == ReportStep || e == WaitCheck || e == ReadPid || e == SendCont
    requires MainStep(s, e).Some?
    ensures MainStep(s, e).value.main.Crashed? || PidInv(MainStep(s, e).value)
  {
    if e == SendCont {
      SameChildrenKeepsPids(s, MainStep(s, e).value.children);
    }
  }

  lemma SignalStepKeepsPids(s: System, e: Event)
    requires Shaped(s) && TableIsChildren(s) && s.stale == {}
    requires !MainEvent(e) && !s.main.Crashed? && SignalStep(s, e).Some?
    ensures SignalStep(s, e).value.main.Crashed? || PidInv(SignalStep(s, e).value)
  {
    if e.Reap? {
      ReapKeepsPids(s, e.pid);
    }
  }

  lemma StaleStays(s: System, e: Event)
    requires Step(s, e).Some?
    ensures s.stale <= Step(s, e).value.stale
    ensures s.stale == {} && Step(s, e).value.stale != {} ==>
      e.Reap? && s.children[e.pid] == Killed(false) && GetJobPid(s.table.jobs, e.pid).Some?
  {
    match e
    case Command(line) => CommandChangesMain(s, line);
    case _ =>
  }

  lemma StepKeepsPids(s: System, e: Event)
    requires PidInv(s) && Step(s, e).Some?
    ensures Step(s, e).value.main.Crashed? || PidInv(Step(s, e).value)
  {
    if s.stale != {} {
      StaleStays(s, e);
    } else if MainEvent(e) {
      MainStepKeepsPids(s, e);
    } else {
      SignalStepKeepsPids(s, e);
    }
  }

  // ----- the foreground

  /** The process the main loop is about to wait for, or waits for, in the foreground; 0 if none. */
  function ForegroundOf(m: Main): int {
    match m
    case Added(pid, Fg) => pid
    case Waiting(pid) => pid
    case _ => 0
  }

  predicate IsFg(j: Job) { Live(j) && j.state == Fg }

  /** At most one slot is marked in the foreground; it is not free, and its job is the one the main
      loop waits for. */
  ghost predicate ForegroundOwned(s: System) {
    && (forall i :: 0 <= i < |s.table.jobs| && s.table.jobs[i].state == Fg ==>
      Live(s.table.jobs[i]) && s.table.jobs[i].pid == ForegroundOf(s.main))
    && (forall i, j :: 0 <= i < j < |s.table.jobs| ==> s.table.jobs[i].state != Fg || s.table.jobs[j].state != Fg)
  }

  ghost predicate FgInv(s: System) {
    !s.raced ==> ForegroundOwned(s)
  }

  lemma WaitEndsForeground(s: System)
    requires ForegroundOwned(s) && s.main.Waiting?
    ensures FgPid(s.table.jobs) != s.main.pid ==>
      forall i :: 0 <= i < |s.table.jobs| ==> s.table.jobs[i].state != Fg
  {
    forall i | 0 <= i < |s.table.jobs| && s.table.jobs[i].state == Fg
      ensures FgPid(s.table.jobs) == s.main.pid
    {
      assert InForeground()(s.table.jobs[i]);
    }
  }

  lemma ObeyChangesMain(s: System, line: string, p: ParseLine.Parsed)
    ensures Obey(s, line, p) == s.(main := Obey(s, line, p).main)
  {
  }

  lemma CommandChangesMain(s: System, line: string)
    requires Step(s, Command(line)).Some?
    ensures var s' := Step(s, Command(line)).value; s' == s.(main := s'.main)
  {
    ObeyChangesMain(s, line, ParseLine.Parse(line));
  }

  /** An event touches at most one slot: the handler clears it or marks it stopped, addjob fills a
      free one, do_bgfg sets its state. */
  lemma StepTouchesOneSlot(s: System, e: Event) returns (slot: nat)
    requires |s.table.jobs| == MAXJOBS && Step(s, e).Some?
    ensures slot < MAXJOBS && |Step(s, e).value.table.jobs| == MAXJOBS
    ensures forall k :: 0 <= k < MAXJOBS && k != slot ==> Step(s, e).value.table.jobs[k] == s.table.jobs[k]
    ensures var j, j' := s.table.jobs[slot], Step(s, e).value.table.jobs[slot];
      || j' == j
      || (e.Reap? && j.pid == e.pid && (j' == CLEARED_JOB || j' == j.(state := St)))
      || (e.AddStep? && s.main.Forked? && !Live(j) && j'.pid == s.main.pid && j'.state == s.main.state)
      || (e.MarkState? && s.main.Mark? && slot == s.main.slot && j' == j.(state := if s.main.toFg then Fg else Bg))
  {
    match e
    case Reap(pid) =>
      slot := if GetJobPid(s.table.jobs, pid).Some? then GetJobPid(s.table.jobs, pid).value else 0;
    case AddStep => slot := if CanAdd(s.table, s.main.pid) then First(s.table.jobs, WithPid(0)) else 0;
    case MarkState => slot := s.main.slot;
    case Command(line) =>
      CommandChangesMain(s, line);
      slot := 0;
    case _ => slot := 0;
  }

  /** No event but fork makes a child, and its number is a process's. */
  lemma StepKeepsChildren(s: System, e: Event, p: int)
    requires Step(s, e).Some? && p in Step(s, e).value.children
    ensures p in s.children || (e.Fork? && p == e.pid >= 1)
  {
    match e
    case Command(line) => CommandChangesMain(s, line);
    case _ =>
  }

  lemma StepKeepsSlots(s: System, e: Event)
    requires Sound(s) && Step(s, e).Some?
    ensures SlotsShaped(Step(s, e).value.table.jobs)
  {
    var slot := StepTouchesOneSlot(s, e);
  }

  lemma StepKeepsMain(s: System, e: Event)
    requires Sound(s) && Step(s, e).Some?
    ensures MainShaped(Step(s, e).value.main, Step(s, e).value.table.jobs)
  {
    if MainEvent(e) {
      MainStepKeepsMain(s, e);
    } else {
      var slot := StepTouchesOneSlot(s, e);
    }
  }

  lemma MainStepKeepsMain(s: System, e: Event)
    requires Sound(s) && MainEvent(e) && !s.main.Crashed? && MainStep(s, e).Some?
    ensures MainShaped(MainStep(s, e).value.main, MainStep(s, e).value.table.jobs)
  {
    match e
    case Command(line) => CommandStep(s, line);
    case _ => OthersKeepMain(s, e);
  }

  lemma OthersKeepMain(s: System, e: Event)
    requires Sound(s) && MainEvent(e) && !e.Command? && !s.main.Crashed? && MainStep(s, e).Some?
    ensures MainShaped(MainStep(s, e).value.main, MainStep(s, e).value.table.jobs)
  {
  }

  lemma StepKeepsSound(s: System, e: Event)
    requires Sound(s) && Step(s, e).Some?
    ensures Sound(Step(s, e).value)
  {
    StepKeepsSlots(s, e);
    StepKeepsMain(s, e);
    forall p | p in Step(s, e).value.children ensures p >= 1 {
      StepKeepsChildren(s, e, p);
    }
  }

  lemma AddKeepsForeground(s: System)
    requires Sound(s) && ForegroundOwned(s) && Step(s, AddStep).Some?
    ensures ForegroundOwned(Step(s, AddStep).value)
  {
    var slot := StepTouchesOneSlot(s, AddStep);
  }

  lemma ReapKeepsForeground(s: System, pid: int)
    requires Sound(s) && ForegroundOwned(s) && Step(s, Reap(pid)).Some?
    ensures Step(s, Reap(pid)).value.main.Crashed? || ForegroundOwned(Step(s, Reap(pid)).value)
  {
    var slot := StepTouchesOneSlot(s, Reap(pid));
  }

  lemma MarkKeepsForeground(s: System)
    requires Sound(s) && ForegroundOwned(s) && Step(s, MarkState).Some?
    ensures var s' := Step(s, MarkState).value; s'.raced || ForegroundOwned(s')
  {
    var slot := StepTouchesOneSlot(s, MarkState);
  }

  lemma WaitKeepsForeground(s: System)
    requires ForegroundOwned(s) && Step(s, WaitCheck).Some?
    ensures ForegroundOwned(Step(s, WaitCheck).value)
  {
    WaitEndsForeground(s);
  }

  lemma CommandKeepsForeground(s: System, line: string)
    requires |s.table.jobs| == MAXJOBS && ForegroundOwned(s) && Step(s, Command(line)).Some?
    ensures ForegroundOwned(Step(s, Command(line)).value)
  {
    CommandStep(s, line);
  }

  lemma OthersKeepForeground(s: System, e: Event)
    requires ForegroundOwned(s) && Step(s, e).Some?
    requires !e.Command? && !e.AddStep? && !e.Reap? && !e.MarkState? && !e.WaitCheck?
    ensures Step(s, e).value.main.Crashed? || ForegroundOwned(Step(s, e).value)
  {
  }

  lemma StepKeepsForeground(s: System, e: Event)
    requires Sound(s) && FgInv(s) && Step(s, e).Some?
    ensures Step(s, e).value.main.Crashed? || FgInv(Step(s, e).value)
  {
    if s.raced {
      RacedGrows(s, e);
    } else {
      match e
      case AddStep => AddKeepsForeground(s);
      case Reap(pid) => ReapKeepsForeground(s, pid);
      case MarkState => MarkKeepsForeground(s);
      case WaitCheck => WaitKeepsForeground(s);
      case Command(line) => CommandKeepsForeground(s, line);
      case _ => OthersKeepForeground(s, e);
    }
  }

  lemma RacedGrows(s: System, e: Event)
    requires Step(s, e).Some? && s.raced
    ensures Step(s, e).value.raced
  {
    match e
    case Command(line) => CommandChangesMain(s, line);
    case _ =>
  }

  /** The write of do_bgfg breaks the rule exactly when it is the fg command's and the slot has been
      cleared since the lookup. */
  lemma MarkBreaksExactly(s: System)
    requires Inv(s) && !s.raced && s.main.Mark? && Step(s, MarkState).Some?
    ensures ForegroundOwned(Step(s, MarkState).value) <==> !(s.main.toFg && !Live(s.table.jobs[s.main.slot]))
  {
    var slot, s' := s.main.slot, Step(s, MarkState).value;
    assert s'.table.jobs[slot].state == if s.main.toFg then Fg else Bg;
    assert forall k :: 0 <= k < MAXJOBS && k != slot ==> s'.table.jobs[k] == s.table.jobs[k];
  }

  // ----- no child is forgotten

  /** One pending SIGCHLD stands for any number of children, so while some child waits to be reported
      the handler is running or will run. */
  ghost predicate NoneForgotten(s: System) {
    !NothingToReap(s.children) ==> s.pending || s.inHandler
  }

  lemma MainKeepsNoneForgotten(s: System, e: Event)
    requires NoneForgotten(s) && MainEvent(e) && !e.Command? && MainStep(s, e).Some?
    ensures NoneForgotten(MainStep(s, e).value)
  {
  }

  lemma SignalKeepsNoneForgotten(s: System, e: Event)
    requires NoneForgotten(s) && !MainEvent(e) && SignalStep(s, e).Some?
    ensures SignalStep(s, e).value.main.Crashed? || NoneForgotten(SignalStep(s, e).value)
  {
  }

  lemma StepKeepsNoneForgotten(s: System, e: Event)
    requires NoneForgotten(s) && Step(s, e).Some?
    ensures Step(s, e).value.main.Crashed? || NoneForgotten(Step(s, e).value)
  {
    if e.Command? {
      CommandChangesMain(s, e.line);
    } else if MainEvent(e) {
      MainKeepsNoneForgotten(s, e);
    } else {
      SignalKeepsNoneForgotten(s, e);
    }
  }

  // ----- every run

  ghost predicate Inv(s: System) {
    s.main.Crashed? || (Sound(s) && PidInv(s) && FgInv(s) && NoneForgotten(s))
  }

  lemma {:induction false} RunInv(run: seq<System>, i: nat)
    requires IsRun(run) && i < |run|
    ensures Inv(run[i])
  {
    if i == 0 {
      assert !Lists(EmptyTable().jobs, 1);
    } else {
      RunInv(run, i - 1);
      assert Next(run[i - 1], run[i]);
      var e :| Step(run[i - 1], e) == Some(run[i]);
      StepKeepsSound(run[i - 1], e);
      StepKeepsPids(run[i - 1], e);
      StepKeepsForeground(run[i - 1], e);
      StepKeepsNoneForgotten(run[i - 1], e);
    }
  }
}
