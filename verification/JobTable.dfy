/** The job list of shlab-handout/tsh.c (lines 519-647): sixteen slots and the next job number. */
module JobTable {
  // The functions say what each helper computes on a table value; the class at the end is the array
  // that the shell changes in place, each of its methods proved against those functions.

  import opened Options

  const MAXJOBS: nat := 16

  datatype State = Undef | Fg | Bg | St

  datatype Job = Job(pid: int, jid: int, state: State, cmdline: string)

  const CLEARED_JOB: Job := Job(0, 0, Undef, "")

  /** `nextjid` is a global of the shell, not part of the array. */
  datatype Table = Table(jobs: seq<Job>, nextjid: int)

  // ----- searching

  /** The first slot that satisfies p, or the number of slots when none does. */
  function First(jobs: seq<Job>, p: Job -> bool): (i: nat)
    ensures i <= |jobs|
    ensures i < |jobs| ==> p(jobs[i])
    ensures forall k :: 0 <= k < i ==> !p(jobs[k])
  {
    if jobs == [] then 0
    else if p(jobs[0]) then 0
    else
      var i := First(jobs[1..], p);
      assert forall k :: 0 < k < i + 1 ==> jobs[k] == jobs[1..][k - 1];
      i + 1
  }

  function WithPid(pid: int): Job -> bool { (j: Job) => j.pid == pid }
  function WithJid(jid: int): Job -> bool { (j: Job) => j.jid == jid }
  function InForeground(): Job -> bool { (j: Job) => j.state == Fg }

  function Slot(jobs: seq<Job>, p: Job -> bool): Option<nat> {
    var i := First(jobs, p);
    if i < |jobs| then Some(i) else None
  }

  function GetJobPid(jobs: seq<Job>, pid: int): Option<nat> {
    if pid < 1 then None else Slot(jobs, WithPid(pid))
  }

  function GetJobJid(jobs: seq<Job>, jid: int): Option<nat> {
    if jid < 1 then None else Slot(jobs, WithJid(jid))
  }

  function Pid2Jid(jobs: seq<Job>, pid: int): int {
    match GetJobPid(jobs, pid)
    case Some(i) => (assert i < |jobs|; jobs[i].jid)
    case None => 0
  }

  function FgPid(jobs: seq<Job>): int {
    var i := First(jobs, InForeground());
    if i < |jobs| then jobs[i].pid else 0
  }

  /** The largest job number in use, or 0. */
  function MaxJid(jobs: seq<Job>): (m: int)
    ensures m >= 0
    ensures forall k :: 0 <= k < |jobs| ==> jobs[k].jid <= m
    ensures m == 0 || exists k :: 0 <= k < |jobs| && jobs[k].jid == m
  {
    if jobs == [] then 0
    else
      var last := |jobs| - 1;
      var m := MaxJid(jobs[..last]);
      assert forall k :: 0 <= k < last ==> jobs[k] == jobs[..last][k];
      if jobs[last].jid > m then jobs[last].jid else m
  }

  // ----- changing

  function NextAfter(jid: int): int { if jid + 1 > MAXJOBS then 1 else jid + 1 }

  predicate CanAdd(t: Table, pid: int) { pid >= 1 && First(t.jobs, WithPid(0)) < |t.jobs| }

  function AddJob(t: Table, pid: int, state: State, cmdline: string): Table {
    if CanAdd(t, pid) then
      Table(t.jobs[First(t.jobs, WithPid(0)) := Job(pid, t.nextjid, state, cmdline)], NextAfter(t.nextjid))
    else t
  }

  function DeleteJob(t: Table, pid: int): Table {
    match GetJobPid(t.jobs, pid)
    case None => t
    case Some(i) =>
      assert i < |t.jobs|;
      var jobs := t.jobs[i := CLEARED_JOB];
      Table(jobs, MaxJid(jobs) + 1)
  }

  /** pid2jid: the number of the first job with the process, and 0 for a process without a job. */
  lemma Pid2JidExactly(jobs: seq<Job>, pid: int, i: nat)
    ensures pid < 1 || (forall k :: 0 <= k < |jobs| ==> jobs[k].pid != pid) ==> Pid2Jid(jobs, pid) == 0
    ensures pid >= 1 && i < |jobs| && jobs[i].pid == pid && (forall k :: 0 <= k < i ==> jobs[k].pid != pid) ==>
              Pid2Jid(jobs, pid) == jobs[i].jid
  {
    var f := First(jobs, WithPid(pid));
    assert f < |jobs| ==> WithPid(pid)(jobs[f]) && jobs[f].pid == pid;
    if i < |jobs| && jobs[i].pid == pid {
      assert WithPid(pid)(jobs[i]);
    }
  }

  // ----- job numbers

  predicate Live(j: Job) { j.pid != 0 }

  /** A slot is free with no job number, or holds a process and a job number. */
  ghost predicate WellFormed(t: Table) {
    && |t.jobs| == MAXJOBS && t.nextjid >= 1
    && forall i :: 0 <= i < MAXJOBS ==>
         if Live(t.jobs[i]) then t.jobs[i].pid >= 1 && t.jobs[i].jid >= 1 else t.jobs[i].jid == 0
  }

  ghost predicate JidsDistinct(jobs: seq<Job>) {
    forall i, k :: 0 <= i < k < |jobs| && Live(jobs[i]) && Live(jobs[k]) ==> jobs[i].jid != jobs[k].jid
  }

  ghost predicate PidsDistinct(jobs: seq<Job>) {
    forall i, k :: 0 <= i < k < |jobs| && Live(jobs[i]) && Live(jobs[k]) ==> jobs[i].pid != jobs[k].pid
  }

  ghost predicate JidInUse(jobs: seq<Job>, jid: int) {
    exists i :: 0 <= i < |jobs| && Live(jobs[i]) && jobs[i].jid == jid
  }

  /** The next number is one past the largest in use. */
  predicate Fresh(t: Table) { t.nextjid == MaxJid(t.jobs) + 1 }

  datatype Op = Add(pid: int, state: State, cmdline: string) | Delete(pid: int)

  function Apply(t: Table, op: Op): Table {
    match op
    case Add(pid, state, cmdline) => AddJob(t, pid, state, cmdline)
    case Delete(pid) => DeleteJob(t, pid)
  }

  function Deletes(t: Table, op: Op): bool { op.Delete? && GetJobPid(t.jobs, op.pid).Some? }

  lemma ApplyWellFormed(t: Table, op: Op)
    requires WellFormed(t)
    ensures WellFormed(Apply(t, op))
  {
  }

  /** Adding keeps the numbers of live jobs distinct exactly when the next number is not in use. */
  lemma AddKeepsJidsExactly(t: Table, pid: int, state: State, cmdline: string)
    requires WellFormed(t) && JidsDistinct(t.jobs) && CanAdd(t, pid)
    ensures JidsDistinct(AddJob(t, pid, state, cmdline).jobs) <==> !JidInUse(t.jobs, t.nextjid)
  {
    var slot, t' := First(t.jobs, WithPid(0)), AddJob(t, pid, state, cmdline);
    assert forall k :: 0 <= k < |t'.jobs| && k != slot ==> t'.jobs[k] == t.jobs[k];
    if JidInUse(t.jobs, t.nextjid) {
      var i :| 0 <= i < |t.jobs| && Live(t.jobs[i]) && t.jobs[i].jid == t.nextjid;
      assert i != slot && Live(t'.jobs[i]) && Live(t'.jobs[slot]) && t'.jobs[i].jid == t'.jobs[slot].jid;
    }
  }

  /** A successful deletion makes the next number fresh, whatever it was. */
  lemma DeleteRefreshes(t: Table, pid: int)
    requires WellFormed(t) && GetJobPid(t.jobs, pid).Some?
    ensures Fresh(DeleteJob(t, pid))
    ensures JidsDistinct(t.jobs) ==> JidsDistinct(DeleteJob(t, pid).jobs)
  {
  }

  /** From a fresh table, an addition hands out an unused number; below MAXJOBS it stays fresh. */
  lemma AddFromFresh(t: Table, pid: int, state: State, cmdline: string)
    requires WellFormed(t) && Fresh(t) && CanAdd(t, pid)
    ensures !JidInUse(t.jobs, t.nextjid)
    ensures Fresh(AddJob(t, pid, state, cmdline)) <==> t.nextjid < MAXJOBS
  {
    var slot, t' := First(t.jobs, WithPid(0)), AddJob(t, pid, state, cmdline);
    assert t'.jobs[slot].jid == t.nextjid;
    assert forall k :: 0 <= k < |t'.jobs| && k != slot ==> t'.jobs[k] == t.jobs[k];
    assert MaxJid(t'.jobs) == t.nextjid;
  }

  /** The table after a run of additions and deletions. */
  function After(t: Table, ops: seq<Op>): Table
    decreases |ops|
  {
    if ops == [] then t else After(Apply(t, ops[0]), ops[1..])
  }

  /** Live job numbers stay distinct after every operation of the run. */
  ghost predicate AlwaysDistinct(t: Table, ops: seq<Op>)
    decreases |ops|
  {
    JidsDistinct(t.jobs) && (ops != [] ==> AlwaysDistinct(Apply(t, ops[0]), ops[1..]))
  }

  /** Every successful addition of the run finds the next number unused. */
  ghost predicate NumbersUnused(t: Table, ops: seq<Op>)
    decreases |ops|
  {
    ops != [] ==>
      && (ops[0].Add? && CanAdd(t, ops[0].pid) ==> !JidInUse(t.jobs, t.nextjid))
      && NumbersUnused(Apply(t, ops[0]), ops[1..])
  }

  /** No addition succeeds between one that hands out a number >= MAXJOBS and the next successful
      deletion; `wrapped` says that such a number was handed out and nothing deleted since. */
  predicate NoAddAfterWrap(t: Table, ops: seq<Op>, wrapped: bool)
    decreases |ops|
  {
    if ops == [] then true
    else
      var op := ops[0];
      var adds := op.Add? && CanAdd(t, op.pid);
      && !(adds && wrapped)
      && NoAddAfterWrap(Apply(t, op), ops[1..],
           if adds then t.nextjid >= MAXJOBS else wrapped && !Deletes(t, op))
  }

  lemma {:induction false} DistinctExactlyWhenUnused(t: Table, ops: seq<Op>)
    requires WellFormed(t) && JidsDistinct(t.jobs)
    ensures AlwaysDistinct(t, ops) <==> NumbersUnused(t, ops)
    decreases |ops|
  {
    if ops != [] {
      var op, t' := ops[0], Apply(t, ops[0]);
      ApplyWellFormed(t, op);
      if op.Add? && CanAdd(t, op.pid) {
        AddKeepsJidsExactly(t, op.pid, op.state, op.cmdline);
      } else if Deletes(t, op) {
        DeleteRefreshes(t, op.pid);
      }
      if JidsDistinct(t'.jobs) {
        DistinctExactlyWhenUnused(t', ops[1..]);
      }
    }
  }

  lemma {:induction false} NoWrapMeansUnused(t: Table, ops: seq<Op>, wrapped: bool)
    requires WellFormed(t) && (Fresh(t) || wrapped) && NoAddAfterWrap(t, ops, wrapped)
    ensures NumbersUnused(t, ops)
    decreases |ops|
  {
    if ops != [] {
      var op, t' := ops[0], Apply(t, ops[0]);
      ApplyWellFormed(t, op);
      if op.Add? && CanAdd(t, op.pid) {
        AddFromFresh(t, op.pid, op.state, op.cmdline);
        NoWrapMeansUnused(t', ops[1..], t.nextjid >= MAXJOBS);
      } else if Deletes(t, op) {
        DeleteRefreshes(t, op.pid);
        NoWrapMeansUnused(t', ops[1..], false);
      } else {
        NoWrapMeansUnused(t, ops[1..], wrapped);
      }
    }
  }

  function EmptyTable(): Table { Table(seq(MAXJOBS, i => CLEARED_JOB), 1) }

  lemma EmptyTableFresh()
    ensures WellFormed(EmptyTable()) && Fresh(EmptyTable()) && JidsDistinct(EmptyTable().jobs)
  {
  }

  /** From the initial table, every run that does not add right after the numbers wrapped keeps the
      numbers of live jobs pairwise distinct. */
  lemma JobNumbersStayDistinct(ops: seq<Op>)
    requires NoAddAfterWrap(EmptyTable(), ops, false)
    ensures AlwaysDistinct(EmptyTable(), ops)
  {
    EmptyTableFresh();
    NoWrapMeansUnused(EmptyTable(), ops, false);
    DistinctExactlyWhenUnused(EmptyTable(), ops);
  }

  /** Looking a live job up by its number finds the same slot as looking it up by its process. */
  ghost predicate LookupsAgree(jobs: seq<Job>) {
    forall i :: 0 <= i < |jobs| && Live(jobs[i]) ==>
      GetJobJid(jobs, Pid2Jid(jobs, jobs[i].pid)) == GetJobPid(jobs, jobs[i].pid) == Some(i)
  }

  lemma PidFound(jobs: seq<Job>, i: nat)
    requires PidsDistinct(jobs) && i < |jobs| && jobs[i].pid >= 1
    ensures GetJobPid(jobs, jobs[i].pid) == Some(i)
  {
    assert WithPid(jobs[i].pid)(jobs[i]);
  }

  lemma JidFound(jobs: seq<Job>, i: nat)
    requires i < |jobs| && jobs[i].jid >= 1
    requires forall k :: 0 <= k < |jobs| && k != i ==> jobs[k].jid != jobs[i].jid
    ensures GetJobJid(jobs, jobs[i].jid) == Some(i)
  {
    assert WithJid(jobs[i].jid)(jobs[i]);
  }

  /** They do so for every live job exactly when the numbers of live jobs are distinct. */
  lemma LookupsAgreeExactly(t: Table)
    requires WellFormed(t) && PidsDistinct(t.jobs)
    ensures JidsDistinct(t.jobs) <==> LookupsAgree(t.jobs)
  {
    forall i | 0 <= i < |t.jobs| && Live(t.jobs[i])
      ensures GetJobPid(t.jobs, t.jobs[i].pid) == Some(i)
    {
      PidFound(t.jobs, i);
    }
    if JidsDistinct(t.jobs) {
      forall i | 0 <= i < |t.jobs| && Live(t.jobs[i])
        ensures GetJobJid(t.jobs, t.jobs[i].jid) == Some(i)
      {
        JidFound(t.jobs, i);
      }
    }
  }

  ghost predicate Unlisted(jobs: seq<Job>, pid: int) {
    forall k :: 0 <= k < |jobs| && Live(jobs[k]) ==> jobs[k].pid != pid
  }

  /** No addition of the run is of a process that is in the table: fork never returns the number of a
      process that has not been reaped. */
  ghost predicate ProcessesUnused(t: Table, ops: seq<Op>)
    decreases |ops|
  {
    ops != [] ==>
      && (ops[0].Add? ==> Unlisted(t.jobs, ops[0].pid))
      && ProcessesUnused(Apply(t, ops[0]), ops[1..])
  }

  /** The lookups agree after every operation of the run. */
  ghost predicate AlwaysAgree(t: Table, ops: seq<Op>)
    decreases |ops|
  {
    LookupsAgree(t.jobs) && (ops != [] ==> AlwaysAgree(Apply(t, ops[0]), ops[1..]))
  }

  lemma ApplyKeepsPids(t: Table, op: Op)
    requires WellFormed(t) && PidsDistinct(t.jobs)
    requires op.Add? ==> Unlisted(t.jobs, op.pid)
    ensures PidsDistinct(Apply(t, op).jobs)
  {
  }

  lemma {:induction false} AgreeExactlyWhenDistinct(t: Table, ops: seq<Op>)
    requires WellFormed(t) && PidsDistinct(t.jobs) && ProcessesUnused(t, ops)
    ensures AlwaysAgree(t, ops) <==> AlwaysDistinct(t, ops)
    decreases |ops|
  {
    LookupsAgreeExactly(t);
    if ops != [] {
      ApplyWellFormed(t, ops[0]);
      ApplyKeepsPids(t, ops[0]);
      AgreeExactlyWhenDistinct(Apply(t, ops[0]), ops[1..]);
    }
  }

  /** From the initial table, the lookups are inverse to each other throughout a run exactly when every
      number that is handed out is unused; which it is if nothing is added right after a wrap. */
  lemma LookupsStayInverse(ops: seq<Op>)
    requires ProcessesUnused(EmptyTable(), ops)
    ensures AlwaysAgree(EmptyTable(), ops) <==> NumbersUnused(EmptyTable(), ops)
    ensures NoAddAfterWrap(EmptyTable(), ops, false) ==> AlwaysAgree(EmptyTable(), ops)
  {
    EmptyTableFresh();
    assert PidsDistinct(EmptyTable().jobs);
    AgreeExactlyWhenDistinct(EmptyTable(), ops);
    DistinctExactlyWhenUnused(EmptyTable(), ops);
    if NoAddAfterWrap(EmptyTable(), ops, false) {
      JobNumbersStayDistinct(ops);
    }
  }

  /** The jobs that sixteen additions put in an empty table, numbered 1 to 16. */
  function FilledTo(k: nat, cmdline: string): seq<Job>
    requires k <= MAXJOBS
  {
    seq(MAXJOBS, i => if 0 <= i < k then Job(100 + i, i + 1, Bg, cmdline) else CLEARED_JOB)
  }

  function SixteenAdds(k: nat, cmdline: string): seq<Op> { seq(k, i => Add(100 + i, Bg, cmdline)) }

  lemma {:induction false} AfterAppend(t: Table, a: seq<Op>, b: seq<Op>)
    ensures After(t, a + b) == After(After(t, a), b)
    decreases |a|
  {
    if a == [] {
      assert a + b == b;
    } else {
      assert (a + b)[1..] == a[1..] + b;
      AfterAppend(Apply(t, a[0]), a[1..], b);
    }
  }

  lemma FillOne(k: nat, cmdline: string)
    requires 0 < k <= MAXJOBS
    ensures AddJob(Table(FilledTo(k - 1, cmdline), k), 99 + k, Bg, cmdline)
      == Table(FilledTo(k, cmdline), if k == MAXJOBS then 1 else k + 1)
    ensures CanAdd(Table(FilledTo(k - 1, cmdline), k), 99 + k)
  {
    var t := Table(FilledTo(k - 1, cmdline), k);
    assert WithPid(0)(t.jobs[k - 1]);
    assert First(t.jobs, WithPid(0)) == k - 1;
    assert t.jobs[k - 1 := Job(99 + k, k, Bg, cmdline)] == FilledTo(k, cmdline);
  }

  lemma {:induction false} FillTable(k: nat, cmdline: string)
    requires k <= MAXJOBS
    ensures After(EmptyTable(), SixteenAdds(k, cmdline))
      == Table(FilledTo(k, cmdline), if k == MAXJOBS then 1 else k + 1)
  {
    if k == 0 {
      assert SixteenAdds(0, cmdline) == [];
      assert FilledTo(0, cmdline) == EmptyTable().jobs;
    } else {
      FillTable(k - 1, cmdline);
      FillOne(k, cmdline);
      var add := Add(99 + k, Bg, cmdline);
      assert SixteenAdds(k, cmdline) == SixteenAdds(k - 1, cmdline) + [add];
      AfterAppend(EmptyTable(), SixteenAdds(k - 1, cmdline), [add]);
      var t := Table(FilledTo(k - 1, cmdline), k);
      assert After(t, [add]) == After(Apply(t, add), []) == Apply(t, add);
    }
  }

  lemma DeleteAt(t: Table, slot: nat, max: int)
    requires slot < |t.jobs| && t.jobs[slot].pid >= 1
    requires forall k :: 0 <= k < slot ==> t.jobs[k].pid != t.jobs[slot].pid
    requires max >= 1 && exists k :: 0 <= k < |t.jobs| && k != slot && t.jobs[k].jid == max
    requires forall k :: 0 <= k < |t.jobs| ==> t.jobs[k].jid <= max
    ensures DeleteJob(t, t.jobs[slot].pid) == Table(t.jobs[slot := CLEARED_JOB], max + 1)
  {
    var jobs := t.jobs[slot := CLEARED_JOB];
    var k :| 0 <= k < |t.jobs| && k != slot && t.jobs[k].jid == max;
    assert jobs[k].jid == max;
    assert WithPid(t.jobs[slot].pid)(t.jobs[slot]);
  }

  lemma AddAt(t: Table, slot: nat, pid: int)
    requires slot < |t.jobs| && t.jobs[slot].pid == 0 && pid >= 1
    requires forall k :: 0 <= k < slot ==> t.jobs[k].pid != 0
    ensures AddJob(t, pid, Bg, "") == Table(t.jobs[slot := Job(pid, t.nextjid, Bg, "")], NextAfter(t.nextjid))
  {
    assert WithPid(0)(t.jobs[slot]);
  }

  lemma AfterFour(t: Table, a: Op, b: Op, c: Op, d: Op)
    ensures After(t, [a, b, c, d]) == Apply(Apply(Apply(Apply(t, a), b), c), d)
  {
    assert [a, b, c, d][1..] == [b, c, d] && [b, c, d][1..] == [c, d] && [c, d][1..] == [d] && [d][1..] == [];
    var t1 := Apply(t, a);
    var t2 := Apply(t1, b);
    var t3 := Apply(t2, c);
    assert After(t3, [d]) == After(Apply(t3, d), []) == Apply(t3, d);
    assert After(t1, [b, c, d]) == After(t2, [c, d]) == After(t3, [d]);
  }

  ghost predicate Full(jobs: seq<Job>) {
    |jobs| == MAXJOBS && forall i :: 0 <= i < MAXJOBS ==> jobs[i].pid == 100 + i && jobs[i].jid == i + 1
  }

  lemma TwoDeletions(t: Table)
    requires Full(t.jobs)
    ensures DeleteJob(DeleteJob(t, 102), 104) == Table(t.jobs[2 := CLEARED_JOB][4 := CLEARED_JOB], 17)
  {
    assert t.jobs[15].jid == 16;
    DeleteAt(t, 2, 16);
    var t1 := Table(t.jobs[2 := CLEARED_JOB], 17);
    assert t1.jobs[15].jid == 16;
    DeleteAt(t1, 4, 16);
  }

  lemma TwoAdditions(t: Table, full: seq<Job>)
    requires Full(full) && t == Table(full[2 := CLEARED_JOB][4 := CLEARED_JOB], 17)
    ensures AddJob(AddJob(t, 200, Bg, ""), 201, Bg, "").jobs
      == full[2 := Job(200, 17, Bg, "")][4 := Job(201, 1, Bg, "")]
  {
    AddAt(t, 2, 200);
    var t1 := Table(t.jobs[2 := Job(200, 17, Bg, "")], 1);
    AddAt(t1, 4, 201);
  }

  function TwoOutTwoIn(): seq<Op> { [Delete(102), Delete(104), Add(200, Bg, ""), Add(201, Bg, "")] }

  lemma AfterWrap(full: seq<Job>)
    requires Full(full)
    ensures After(Table(full, 1), TwoOutTwoIn()).jobs
      == full[2 := Job(200, 17, Bg, "")][4 := Job(201, 1, Bg, "")]
  {
    AfterFour(Table(full, 1), Delete(102), Delete(104), Add(200, Bg, ""), Add(201, Bg, ""));
    TwoDeletions(Table(full, 1));
    TwoAdditions(Table(full[2 := CLEARED_JOB][4 := CLEARED_JOB], 17), full);
  }

  /** Sixteen additions, the deletion of jobs 3 and 5, and two more additions: the second of them
      gets number 1, which job 1 still has. */
  lemma WrapGivesDuplicate()
    ensures !JidsDistinct(After(EmptyTable(), SixteenAdds(16, "job") + TwoOutTwoIn()).jobs)
  {
    FillTable(16, "job");
    AfterAppend(EmptyTable(), SixteenAdds(16, "job"), TwoOutTwoIn());
    var full := FilledTo(16, "job");
    AfterWrap(full);
    var last := full[2 := Job(200, 17, Bg, "")][4 := Job(201, 1, Bg, "")];
    assert Live(last[0]) && Live(last[4]) && last[0].jid == last[4].jid;
  }

  // ----- the array the shell changes in place

  class JobList {
    const jobs: array<Job>
    var nextjid: int

    ghost predicate Valid()
      reads this
    {
      jobs.Length == MAXJOBS
    }

    function View(): Table
      reads this, jobs
    {
      Table(jobs[..], nextjid)
    }

    constructor ()
      ensures Valid() && View() == EmptyTable() && fresh(jobs)
    {
      jobs := new Job[MAXJOBS](_ => CLEARED_JOB);
      nextjid := 1;
      new;
      assert jobs[..] == EmptyTable().jobs;
    }

    method ClearJob(i: nat)
      requires Valid() && i < MAXJOBS
      modifies jobs
      ensures jobs[..] == old(jobs[..])[i := CLEARED_JOB]
    {
      jobs[i] := CLEARED_JOB;
    }

    method InitJobs()
      requires Valid()
      modifies jobs
      ensures jobs[..] == EmptyTable().jobs
    {
      for i := 0 to MAXJOBS
        invariant forall k :: 0 <= k < i ==> jobs[k] == CLEARED_JOB
      {
        ClearJob(i);
      }
      assert jobs[..] == EmptyTable().jobs;
    }

    method FindMaxJid() returns (max: int)
      requires Valid()
      ensures max == MaxJid(jobs[..])
    {
      max := 0;
      for i := 0 to MAXJOBS
        invariant max == MaxJid(jobs[..i])
      {
        assert jobs[..i + 1][..i] == jobs[..i];
        if jobs[i].jid > max {
          max := jobs[i].jid;
        }
      }
      assert jobs[..MAXJOBS] == jobs[..];
    }

    method Add(pid: int, state: State, cmdline: string) returns (ok: bool)
      requires Valid()
      modifies this, jobs
      ensures Valid() && View() == AddJob(old(View()), pid, state, cmdline)
      ensures ok == CanAdd(old(View()), pid)
    {
      if pid < 1 {
        return false;
      }
      for i := 0 to MAXJOBS
        invariant unchanged(this) && unchanged(jobs)
        invariant forall k :: 0 <= k < i ==> jobs[k].pid != 0
      {
        if jobs[i].pid == 0 {
          assert i == First(jobs[..], WithPid(0)) by {
            assert WithPid(0)(jobs[..][i]);
          }
          jobs[i] := Job(pid, nextjid, state, cmdline);
          nextjid := nextjid + 1;
          if nextjid > MAXJOBS {
            nextjid := 1;
          }
          return true;
        }
      }
      return false;
    }

    method Delete(pid: int) returns (ok: bool)
      requires Valid()
      modifies this, jobs
      ensures Valid() && View() == DeleteJob(old(View()), pid)
      ensures ok == GetJobPid(old(jobs[..]), pid).Some?
    {
      if pid < 1 {
        return false;
      }
      for i := 0 to MAXJOBS
        invariant unchanged(this) && unchanged(jobs)
        invariant forall k :: 0 <= k < i ==> jobs[k].pid != pid
      {
        if jobs[i].pid == pid {
          assert i == First(jobs[..], WithPid(pid)) by {
            assert WithPid(pid)(jobs[..][i]);
          }
          ClearJob(i);
          var max := FindMaxJid();
          nextjid := max + 1;
          return true;
        }
      }
      return false;
    }

    method FindFgPid() returns (pid: int)
      requires Valid()
      ensures pid == FgPid(jobs[..])
    {
      for i := 0 to MAXJOBS
        invariant forall k :: 0 <= k < i ==> jobs[k].state != Fg
      {
        if jobs[i].state == Fg {
          assert i == First(jobs[..], InForeground()) by {
            assert InForeground()(jobs[..][i]);
          }
          return jobs[i].pid;
        }
      }
      return 0;
    }

    method FindByPid(pid: int) returns (slot: Option<nat>)
      requires Valid()
      ensures slot == GetJobPid(jobs[..], pid)
    {
      if pid < 1 {
        return None;
      }
      for i := 0 to MAXJOBS
        invariant forall k :: 0 <= k < i ==> jobs[k].pid != pid
      {
        if jobs[i].pid == pid {
          assert i == First(jobs[..], WithPid(pid)) by {
            assert WithPid(pid)(jobs[..][i]);
          }
          return Some(i);
        }
      }
      return None;
    }

    method FindByJid(jid: int) returns (slot: Option<nat>)
      requires Valid()
      ensures slot == GetJobJid(jobs[..], jid)
    {
      if jid < 1 {
        return None;
      }
      for i := 0 to MAXJOBS
        invariant forall k :: 0 <= k < i ==> jobs[k].jid != jid
      {
        if jobs[i].jid == jid {
          assert i == First(jobs[..], WithJid(jid)) by {
            assert WithJid(jid)(jobs[..][i]);
          }
          return Some(i);
        }
      }
      return None;
    }

    method JidOfPid(pid: int) returns (jid: int)
      requires Valid()
      ensures jid == Pid2Jid(jobs[..], pid)
    {
      if pid < 1 {
        return 0;
      }
      for i := 0 to MAXJOBS
        invariant forall k :: 0 <= k < i ==> jobs[k].pid != pid
      {
        if jobs[i].pid == pid {
          assert i == First(jobs[..], WithPid(pid)) by {
            assert WithPid(pid)(jobs[..][i]);
          }
          return jobs[i].jid;
        }
      }
      return 0;
    }
  }
}
