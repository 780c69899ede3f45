/** What each command line makes the shell of shlab-handout/tsh.c do. */
module ShellCommands {
  import opened JobTable
  import opened Memory
  import opened Options
  import ParseLine
  import Sio
  import opened Shell

  // ----- the argument of fg and bg

  predicate AllDigits(text: string) {
    forall k :: 0 <= k < |text| ==> '0' <= text[k] <= '9'
  }

  lemma IsNumExactly(text: string)
    ensures IsNum(text) <==> AllDigits(text)
  {
    forall k | 0 <= k < |text| ensures Sio.IsDigit(text[k], 10) <==> '0' <= text[k] <= '9' {
    }
  }

  /** A job number follows %; anything else is a process number. */
  predicate IsJobNumber(arg: string) { arg != "" && arg[0] == '%' }

  function Digits(arg: string): string { if IsJobNumber(arg) then arg[1..] else arg }

  function Key(j: Job, byJob: bool): int { if byJob then j.jid else j.pid }

  /** Slot i is the first with the number n. */
  ghost predicate FirstWith(jobs: seq<Job>, i: nat, byJob: bool, n: int) {
    i < |jobs| && Key(jobs[i], byJob) == n && forall k :: 0 <= k < i ==> Key(jobs[k], byJob) != n
  }

  /** The argument of fg or bg denotes the job in slot i: it is a number, not 0, and slot i is the first
      that has it. */
  ghost predicate Denotes(jobs: seq<Job>, args: seq<string>, i: nat) {
    && |args| >= 2 && AllDigits(Digits(args[1])) && Sio.Value(Digits(args[1]), 10) >= 1
    && FirstWith(jobs, i, IsJobNumber(args[1]), Sio.Value(Digits(args[1]), 10))
  }

  lemma LookupExactly(jobs: seq<Job>, byJob: bool, n: int, i: nat)
    ensures (if byJob then GetJobJid(jobs, n) else GetJobPid(jobs, n)) == Some(i)
      <==> n >= 1 && FirstWith(jobs, i, byJob, n)
  {
    var p := if byJob then WithJid(n) else WithPid(n);
    assert forall k :: 0 <= k < |jobs| ==> (p(jobs[k]) <==> Key(jobs[k], byJob) == n);
    var f := First(jobs, p);
    if i < |jobs| && FirstWith(jobs, i, byJob, n) {
      assert f == i;
    }
  }

  /** What getjobjid or getjobpid finds for the argument. */
  function Lookup(jobs: seq<Job>, arg: string): Option<nat> {
    var n := Sio.Value(Digits(arg), 10);
    if !AllDigits(Digits(arg)) then None
    else if IsJobNumber(arg) then GetJobJid(jobs, n) else GetJobPid(jobs, n)
  }

  lemma BgfgLooksUp(s: System, args: seq<string>, toFg: bool)
    ensures DoBgfg(s, args, toFg)
      == if |args| < 2 then s else FoundJob(s, Lookup(s.table.jobs, args[1]), toFg)
  {
    if |args| >= 2 {
      IsNumExactly(Digits(args[1]));
    }
  }

  lemma LookupDenotes(jobs: seq<Job>, args: seq<string>, i: nat)
    requires |args| >= 2
    ensures Lookup(jobs, args[1]) == Some(i) <==> Denotes(jobs, args, i)
  {
    LookupExactly(jobs, IsJobNumber(args[1]), Sio.Value(Digits(args[1]), 10), i);
  }

  /** fg and bg go on to slot i exactly when their argument denotes the job there, and otherwise leave
      the shell at its prompt. */
  lemma ResumeExactly(s: System, line: string, p: ParseLine.Parsed, i: nat)
    requires s.main.Reading? && p.args != [] && (p.args[0] == "fg" || p.args[0] == "bg")
    ensures Obey(s, line, p) == s.(main := Found(i, p.args[0] == "fg")) <==> Denotes(s.table.jobs, p.args, i)
    ensures Obey(s, line, p) == s <==> forall k: nat :: !Denotes(s.table.jobs, p.args, k)
  {
    BgfgLooksUp(s, p.args, p.args[0] == "fg");
    if |p.args| >= 2 {
      LookupDenotes(s.table.jobs, p.args, i);
      var slot := Lookup(s.table.jobs, p.args[1]);
      if slot.Some? {
        LookupDenotes(s.table.jobs, p.args, slot.value);
      } else {
        forall k: nat ensures !Denotes(s.table.jobs, p.args, k) {
          LookupDenotes(s.table.jobs, p.args, k);
        }
      }
    }
  }

  // ----- the other commands

  predicate BuiltIn(verb: string) { verb == "quit" || verb == "jobs" || verb == "fg" || verb == "bg" }

  /** quit ends the shell, jobs leaves it at its prompt, and any other command is a job to be started, in
      the background as the line says. */
  lemma OthersExactly(s: System, line: string, p: ParseLine.Parsed)
    requires p.args != []
    ensures p.args[0] == "quit" ==> Obey(s, line, p) == s.(main := Quit)
    ensures p.args[0] == "jobs" ==> Obey(s, line, p) == s
    ensures !BuiltIn(p.args[0]) ==> Obey(s, line, p) == s.(main := Blocked(if p.bg then Bg else Fg, line))
  {
  }

  // ----- typed lines

  predicate Background(args: seq<string>) {
    args != [] && args[|args| - 1] != "" && args[|args| - 1][0] == '&'
  }

  /** The arguments that remain once a request for the background is taken off. */
  function Kept(args: seq<string>): seq<string> {
    if Background(args) then args[..|args| - 1] else args
  }

  /** A typed line is obeyed by its arguments. */
  lemma LineObeyed(s: System, lead: nat, pieces: seq<ParseLine.Piece>)
    requires s.main.Reading? && !s.inHandler && pieces != [] && ParseLine.WellTyped(pieces)
    ensures var args := ParseLine.Args(pieces);
      Step(s, Command(ParseLine.Line(lead, pieces)))
      == Some(Obey(s, ParseLine.Line(lead, pieces), ParseLine.Parsed(Kept(args), Background(args))))
  {
    ParseLine.ParseUndoesTyping(lead, pieces);
  }

  /** Any typed line whose command is not built in starts a job, in the background exactly when its last
      argument starts with &. */
  lemma TypedJob(s: System, lead: nat, pieces: seq<ParseLine.Piece>)
    requires s.main.Reading? && !s.inHandler && pieces != [] && ParseLine.WellTyped(pieces)
    requires var args := Kept(ParseLine.Args(pieces)); args != [] && !BuiltIn(args[0])
    ensures var line := ParseLine.Line(lead, pieces);
      Step(s, Command(line))
      == Some(s.(main := Blocked(if Background(ParseLine.Args(pieces)) then Bg else Fg, line)))
  {
    var args := ParseLine.Args(pieces);
    LineObeyed(s, lead, pieces);
    OthersExactly(s, ParseLine.Line(lead, pieces), ParseLine.Parsed(Kept(args), Background(args)));
  }

  /** fg or bg with a number, after % or without. */
  function ResumePieces(toFg: bool, gap: nat, byJob: bool, n: int): seq<ParseLine.Piece>
    requires n >= 0
  {
    [ParseLine.Piece(if toFg then "fg" else "bg", false, gap),
     ParseLine.Piece(ResumeText(byJob, Sio.Numeral(n, 10)), false, 0)]
  }

  function ResumeText(byJob: bool, digits: string): string { (if byJob then "%" else "") + digits }

  lemma ResumeTextTyped(byJob: bool, digits: string)
    requires Sio.IsNumeral(digits, 10)
    ensures var arg := ResumeText(byJob, digits);
      && ParseLine.Typeable(ParseLine.Piece(arg, false, 0)) && arg != "" && arg[0] != '&'
      && Digits(arg) == digits && IsJobNumber(arg) == byJob
  {
    var arg := ResumeText(byJob, digits);
    NumeralTyped(digits);
    if byJob {
      assert arg[0] == '%' && arg[1..] == digits;
    } else {
      assert arg == digits;
    }
  }

  lemma TwoPieces(a: ParseLine.Piece, b: ParseLine.Piece)
    requires ParseLine.Typeable(a) && ParseLine.Typeable(b) && a.gap > 0 && b.arg != "" && b.arg[0] != '&'
    ensures ParseLine.WellTyped([a, b]) && !Background(ParseLine.Args([a, b]))
    ensures ParseLine.Args([a, b]) == [a.arg, b.arg]
  {
    assert ParseLine.Args([a, b]) == [a.arg, b.arg];
  }

  lemma ResumeArgs(toFg: bool, gap: nat, byJob: bool, n: int)
    requires gap > 0 && n >= 0
    ensures var pieces := ResumePieces(toFg, gap, byJob, n);
      var args := ParseLine.Args(pieces);
      && ParseLine.WellTyped(pieces) && !Background(args) && |args| == 2
      && args[0] == (if toFg then "fg" else "bg")
      && Digits(args[1]) == Sio.Numeral(n, 10) && IsJobNumber(args[1]) == byJob
  {
    Sio.NumeralDenotes(n, 10);
    ResumeTextTyped(byJob, Sio.Numeral(n, 10));
    var a := ParseLine.Piece(if toFg then "fg" else "bg", false, gap);
    var b := ParseLine.Piece(ResumeText(byJob, Sio.Numeral(n, 10)), false, 0);
    TwoPieces(a, b);
    assert ResumePieces(toFg, gap, byJob, n) == [a, b];
  }

  /** fg or bg, typed with a number after % or without, goes on to slot i exactly when that is the first
      with this job number or process number. */
  lemma TypedResume(s: System, lead: nat, gap: nat, toFg: bool, byJob: bool, n: int, i: nat)
    requires s.main.Reading? && !s.inHandler && gap > 0 && n >= 1
    ensures Step(s, Command(ParseLine.Line(lead, ResumePieces(toFg, gap, byJob, n))))
      == Some(s.(main := Found(i, toFg)))
      <==> FirstWith(s.table.jobs, i, byJob, n)
  {
    var pieces := ResumePieces(toFg, gap, byJob, n);
    var args := ParseLine.Args(pieces);
    ResumeArgs(toFg, gap, byJob, n);
    Sio.NumeralDenotes(n, 10);
    NumeralTyped(Sio.Numeral(n, 10));
    LineObeyed(s, lead, pieces);
    ResumeExactly(s, ParseLine.Line(lead, pieces), ParseLine.Parsed(args, false), i);
  }

  /** A numeral has no character that means anything to the parser. */
  lemma NumeralTyped(digits: string)
    requires Sio.IsNumeral(digits, 10)
    ensures digits != "" && AllDigits(digits) && digits[0] != '%' && digits[0] != '&'
    ensures '\'' !in digits && '\n' !in digits && NUL !in digits && ' ' !in digits
  {
    assert forall k :: 0 <= k < |digits| ==> Sio.IsDigit(digits[k], 10) && '0' <= digits[k] <= '9';
  }
}
