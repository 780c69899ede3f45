/** The command-line parser of shlab-handout/tsh.c (lines 231-285). */
module ParseLine {
  // The parser copies the line into a static buffer, cuts it into C strings by writing NULs, and leaves
  // pointers to them in argv. Here a pointer is an index into the buffer.

  import opened Memory
  import opened Options

  const MAXLINE: nat := 1024
  const MAXARGS: nat := 128

  // ----- what a line means

  /** strchr: where c first occurs. */
  function Find(s: string, c: char): (r: Option<nat>)
    ensures r.Some? ==> r.value < |s| && s[r.value] == c && c !in s[..r.value]
    ensures r.None? ==> c !in s
  {
    if s == [] then None
    else if s[0] == c then Some(0)
    else
      match Find(s[1..], c)
      case None => None
      case Some(i) =>
        assert s[..i + 1] == [s[0]] + s[1..][..i];
        Some(i + 1)
  }

  function SkipSpaces(s: string): (t: string)
    ensures |t| <= |s|
  {
    if s != [] && s[0] == ' ' then SkipSpaces(s[1..]) else s
  }

  datatype Cut = NoMore | Found(arg: string, rest: string)

  /** The first argument of a text, and what follows it: a run of characters up to a space, or whatever
      stands between single quotes. A text that ends inside an argument loses it. */
  function NextArg(s: string): (r: Cut)
    ensures r.Found? ==> |r.rest| < |s|
  {
    var t := SkipSpaces(s);
    if t == [] then NoMore
    else if t[0] == '\'' then CutAt(t[1..], '\'')
    else CutAt(t, ' ')
  }

  function CutAt(u: string, c: char): (r: Cut)
    ensures r.Found? ==> |r.rest| < |u|
  {
    match Find(u, c)
    case None => NoMore
    case Some(i) => Found(u[..i], u[i + 1..])
  }

  function Tokens(s: string): seq<string>
    decreases |s|
  {
    match NextArg(s)
    case NoMore => []
    case Found(arg, rest) => [arg] + Tokens(rest)
  }

  datatype Parsed = Parsed(args: seq<string>, bg: bool)

  /** The line's last character, normally its newline, counts as a space; a last argument that starts
      with & asks for the background and is dropped; a blank line counts as background. */
  function Parse(line: string): Parsed
    requires line != ""
  {
    var args := Tokens(line[..|line| - 1] + " ");
    if args == [] then Parsed([], true)
    else
      var last := args[|args| - 1];
      if last != "" && last[0] == '&' then Parsed(args[..|args| - 1], true) else Parsed(args, false)
  }

  // ----- rendering a list of arguments, and back

  /** One argument as it is typed: in quotes or bare, followed by some spaces. */
  datatype Piece = Piece(arg: string, quoted: bool, gap: nat)

  predicate Typeable(p: Piece) {
    && '\'' !in p.arg && '\n' !in p.arg && NUL !in p.arg
    && (!p.quoted ==> p.arg != "" && ' ' !in p.arg)
  }

  function Spaces(n: nat): string { seq(n, i => ' ') }

  function Text(p: Piece): string {
    (if p.quoted then "'" + p.arg + "'" else p.arg) + Spaces(p.gap)
  }

  function Body(pieces: seq<Piece>): string {
    if pieces == [] then "" else Text(pieces[0]) + Body(pieces[1..])
  }

  function Args(pieces: seq<Piece>): seq<string> {
    seq(|pieces|, i requires 0 <= i < |pieces| => pieces[i].arg)
  }

  /** Any number of spaces may follow an argument; a bare one that is not the last needs one. */
  predicate WellTyped(pieces: seq<Piece>) {
    forall i :: 0 <= i < |pieces| ==>
      Typeable(pieces[i]) && (!pieces[i].quoted && i < |pieces| - 1 ==> pieces[i].gap > 0)
  }

  function Line(lead: nat, pieces: seq<Piece>): string { Spaces(lead) + Body(pieces) + "\n" }

  lemma {:induction false} SkipsRun(n: nat, rest: string)
    ensures SkipSpaces(Spaces(n) + rest) == SkipSpaces(rest)
  {
    if n == 0 {
      assert Spaces(0) + rest == rest;
    } else {
      assert (Spaces(n) + rest)[1..] == Spaces(n - 1) + rest;
      SkipsRun(n - 1, rest);
    }
  }

  lemma SpacesDoNotMatter(n: nat, rest: string)
    ensures Tokens(Spaces(n) + rest) == Tokens(rest)
  {
    SkipsRun(n, rest);
    assert NextArg(Spaces(n) + rest) == NextArg(rest);
  }

  lemma {:induction false} FindAfter(before: string, c: char, after: string)
    requires c !in before
    ensures Find(before + [c] + after, c) == Some(|before|)
  {
    if before != "" {
      assert (before + [c] + after)[1..] == before[1..] + [c] + after;
      FindAfter(before[1..], c, after);
    }
  }

  lemma QuotedToken(arg: string, rest: string)
    requires '\'' !in arg
    ensures NextArg("'" + arg + "'" + rest) == Found(arg, rest)
    ensures Tokens("'" + arg + "'" + rest) == [arg] + Tokens(rest)
  {
    var s := "'" + arg + "'" + rest;
    assert SkipSpaces(s) == s;
    assert s[1..] == arg + ['\''] + rest;
    FindAfter(arg, '\'', rest);
    assert s[1..][..|arg|] == arg && s[1..][|arg| + 1..] == rest;
    assert NextArg(s) == Found(arg, rest);
  }

  lemma BareToken(arg: string, rest: string)
    requires arg != "" && ' ' !in arg && arg[0] != '\''
    ensures NextArg(arg + " " + rest) == Found(arg, rest)
    ensures Tokens(arg + " " + rest) == [arg] + Tokens(rest)
  {
    var s := arg + " " + rest;
    assert s[0] == arg[0] && SkipSpaces(s) == s;
    assert s == arg + [' '] + rest;
    FindAfter(arg, ' ', rest);
    assert s[..|arg|] == arg && s[|arg| + 1..] == rest;
    assert NextArg(s) == Found(arg, rest);
  }

  /** The text is an argument, after some spaces, and then the rest: in quotes, with no quote inside, or
      bare, with no space inside and no quote in front, and ended by a space. */
  ghost predicate IsNextArg(s: string, n: nat, arg: string, rest: string) {
    || (s == Spaces(n) + ("'" + arg + "'" + rest) && '\'' !in arg)
    || (s == Spaces(n) + (arg + " " + rest) && arg != "" && ' ' !in arg && arg[0] != '\'')
  }

  /** What the next argument of any text is, and what follows it. */
  lemma NextArgExactly(s: string, arg: string, rest: string)
    ensures NextArg(s) == Found(arg, rest) <==> exists n: nat :: IsNextArg(s, n, arg, rest)
  {
    forall n: nat | IsNextArg(s, n, arg, rest) ensures NextArg(s) == Found(arg, rest) {
      if s == Spaces(n) + ("'" + arg + "'" + rest) && '\'' !in arg {
        QuotedToken(arg, rest);
        SkipsRun(n, "'" + arg + "'" + rest);
      } else {
        BareToken(arg, rest);
        SkipsRun(n, arg + " " + rest);
      }
    }
    if NextArg(s) == Found(arg, rest) {
      var n := SpacesSkipped(s);
      var t := SkipSpaces(s);
      if t[0] == '\'' {
        assert t == "'" + arg + "'" + rest;
      } else {
        assert t == arg + " " + rest;
      }
      assert IsNextArg(s, n, arg, rest);
    }
  }

  lemma {:induction false} SpacesSkipped(s: string) returns (n: nat)
    ensures s == Spaces(n) + SkipSpaces(s) && (SkipSpaces(s) != "" ==> SkipSpaces(s)[0] != ' ')
  {
    if s != [] && s[0] == ' ' {
      n := SpacesSkipped(s[1..]);
      n := n + 1;
      assert Spaces(n) == [' '] + Spaces(n - 1);
    } else {
      n := 0;
    }
  }

  lemma TextToken(p: Piece, rest: string)
    requires Typeable(p) && (p.quoted || p.gap > 0)
    ensures Tokens(Text(p) + rest) == [p.arg] + Tokens(rest)
  {
    if p.quoted {
      assert Text(p) + rest == "'" + p.arg + "'" + (Spaces(p.gap) + rest);
      QuotedToken(p.arg, Spaces(p.gap) + rest);
      SpacesDoNotMatter(p.gap, rest);
    } else {
      assert Spaces(p.gap) == " " + Spaces(p.gap - 1);
      assert Text(p) + rest == p.arg + " " + (Spaces(p.gap - 1) + rest);
      BareToken(p.arg, Spaces(p.gap - 1) + rest);
      SpacesDoNotMatter(p.gap - 1, rest);
    }
  }

  lemma OnlySpace()
    ensures Tokens(" ") == []
  {
    SpacesDoNotMatter(1, "");
    assert Spaces(1) + "" == " ";
  }

  lemma {:induction false} TokensOfBody(pieces: seq<Piece>)
    requires WellTyped(pieces)
    ensures Tokens(Body(pieces) + " ") == Args(pieces)
    decreases |pieces|
  {
    OnlySpace();
    if pieces == [] {
      assert Body(pieces) + " " == " ";
    } else {
      var p, others := pieces[0], pieces[1..];
      assert Args(pieces) == [p.arg] + Args(others);
      if p.quoted || p.gap > 0 {
        TokensOfBody(others);
        assert Body(pieces) + " " == Text(p) + (Body(others) + " ");
        TextToken(p, Body(others) + " ");
      } else {
        assert Body(pieces) + " " == p.arg + " " + "";
        BareToken(p.arg, "");
      }
    }
  }

  /** Typing out any list of arguments and parsing the line gives back the list; if the last one
      starts with &, it is taken off and the job goes to the background. */
  lemma ParseUndoesTyping(lead: nat, pieces: seq<Piece>)
    requires pieces != [] && WellTyped(pieces)
    ensures var args := Args(pieces); var last := args[|args| - 1];
      Parse(Line(lead, pieces)) ==
        if last != "" && last[0] == '&' then Parsed(args[..|args| - 1], true) else Parsed(args, false)
  {
    var line := Line(lead, pieces);
    assert line[..|line| - 1] + " " == Spaces(lead) + (Body(pieces) + " ");
    SpacesDoNotMatter(lead, Body(pieces) + " ");
    TokensOfBody(pieces);
  }

  /** Only spaces: no argument, and the background flag. */
  lemma BlankLine(n: nat)
    ensures Parse(Spaces(n) + "\n") == Parsed([], true)
  {
    var line := Spaces(n) + "\n";
    assert line[..|line| - 1] + " " == Spaces(n + 1) + "";
    SpacesDoNotMatter(n + 1, "");
  }

  /** After its leading spaces a text is empty, or opens a quote that is never closed. */
  predicate NothingToTake(text: string) {
    var t := SkipSpaces(text);
    t == "" || (t[0] == '\'' && '\'' !in t[1..])
  }

  lemma {:induction false} SkipKeepsEnd(s: string)
    ensures s != "" && s[|s| - 1] != ' ' ==> SkipSpaces(s) != ""
    ensures SkipSpaces(s) != "" ==> SkipSpaces(s)[|SkipSpaces(s)| - 1] == s[|s| - 1]
  {
    if s != "" && s[0] == ' ' {
      SkipKeepsEnd(s[1..]);
    }
  }

  /** A text that ends with a space has no first argument exactly when there is nothing to take. */
  lemma NoMoreExactly(text: string)
    requires text != "" && text[|text| - 1] == ' '
    ensures NextArg(text) == NoMore <==> NothingToTake(text)
  {
    var t := SkipSpaces(text);
    SkipKeepsEnd(text);
    if t != "" && t[0] != '\'' {
      assert t[|t| - 1] == ' ' && ' ' in t;
    }
  }

  /** A line has no arguments exactly when there is nothing to take in it, or its one argument starts
      with &. */
  lemma NoArgumentsExactly(line: string)
    requires line != ""
    ensures var text := line[..|line| - 1] + " ";
      Parse(line).args == [] <==>
        NothingToTake(text) || (|Tokens(text)| == 1 && Tokens(text)[0] != "" && Tokens(text)[0][0] == '&')
  {
    NoMoreExactly(line[..|line| - 1] + " ");
  }

  lemma EmptyLines()
    ensures Parse("\n").args == [] && Parse("&\n").args == [] && Parse("'a\n").args == []
  {
    BlankLine(0);
    assert Spaces(0) + "\n" == "\n";
    ParseUndoesTyping(0, [Piece("&", false, 0)]);
    assert Args([Piece("&", false, 0)]) == ["&"];
    assert Line(0, [Piece("&", false, 0)]) == "&\n" by {
      assert Body([Piece("&", false, 0)]) == Text(Piece("&", false, 0)) == "&";
    }
    var text := "'a\n"[..2] + " ";
    assert text == "'a ";
    assert SkipSpaces(text) == text && '\'' !in text[1..];
    NoArgumentsExactly("'a\n");
  }

  // ----- the parser itself

  /** The C string that starts at index i. */
  function CString(buf: seq<char>, i: nat): string
    decreases |buf| - i
  {
    if i < |buf| && buf[i] != NUL then [buf[i]] + CString(buf, i + 1) else ""
  }

  lemma {:induction false} CStringIs(buf: seq<char>, i: nat, t: string)
    requires i + |t| < |buf| && buf[i..i + |t|] == t && buf[i + |t|] == NUL && NUL !in t
    ensures CString(buf, i) == t
    decreases |t|
  {
    if t != "" {
      assert buf[i] == t[0];
      assert buf[i + 1..i + 1 + |t[1..]|] == t[1..];
      CStringIs(buf, i + 1, t[1..]);
    }
  }

  /** The part of the buffer from b on still holds the text s from b on, then a NUL. */
  predicate Holds(buf: seq<char>, s: string, b: nat) {
    && b <= |s| < |buf| && NUL !in s && buf[|s|] == NUL
    && forall k :: b <= k < |s| ==> buf[k] == s[k]
  }

  method SkipBlanks(buf: array<char>, start: nat, ghost s: string) returns (b: nat)
    requires Holds(buf[..], s, start)
    ensures start <= b <= |s|
    ensures s[b..] == SkipSpaces(s[start..])
  {
    b := start;
    while buf[b] != NUL && buf[b] == ' '
      invariant start <= b <= |s|
      invariant SkipSpaces(s[b..]) == SkipSpaces(s[start..])
      decreases |s| - b
    {
      assert buf[..][b] == s[b..][0];
      assert s[b..][1..] == s[b + 1..];
      b := b + 1;
    }
    if b < |s| {
      assert buf[..][b] == s[b..][0];
    }
  }

  method FindChar(buf: array<char>, start: nat, c: char, ghost s: string) returns (d: Option<nat>)
    requires Holds(buf[..], s, start) && c != NUL
    ensures d == match Find(s[start..], c) case None => None case Some(i) => Some(start + i)
  {
    var i := start;
    while buf[i] != NUL
      invariant start <= i <= |s|
      invariant c !in s[start..i]
      decreases |s| - i
    {
      assert buf[..][i] == s[i];
      if buf[i] == c {
        assert s[start..] == s[start..i] + [c] + s[i + 1..];
        FindAfter(s[start..i], c, s[i + 1..]);
        return Some(i);
      }
      assert s[start..i + 1] == s[start..i] + [s[i]];
      i := i + 1;
    }
    assert i == |s| by {
      assert buf[..][i] == NUL;
      assert NUL in s <==> exists k :: 0 <= k < |s| && s[k] == NUL;
    }
    assert s[start..i] == s[start..];
    return None;
  }

  /** FindChar, seen as ending an argument that starts at b. */
  method FindEnd(buf: array<char>, b: nat, c: char, ghost s: string) returns (delim: Option<nat>)
    requires Holds(buf[..], s, b) && c != NUL
    ensures delim.Some? ==> b <= delim.value < |s|
    ensures CutAt(s[b..], c) == match delim case None => NoMore case Some(d) => Found(s[b..d], s[d + 1..])
  {
    delim := FindChar(buf, b, c, s);
    if delim.Some? {
      assert s[b..][..delim.value - b] == s[b..delim.value];
      assert s[b..][delim.value - b + 1..] == s[delim.value + 1..];
    }
  }

  /** The block that the parser runs before its loop and at the end of each round: skip spaces, step
      over an opening quote, and look for the end of the argument. */
  method NextToken(buf: array<char>, start: nat, ghost s: string) returns (b: nat, delim: Option<nat>)
    requires Holds(buf[..], s, start)
    ensures start <= b <= |s| && (delim.Some? ==> b <= delim.value < |s|)
    ensures NextArg(s[start..]) ==
      match delim case None => NoMore case Some(d) => Found(s[b..d], s[d + 1..])
  {
    b := SkipBlanks(buf, start, s);
    ghost var t := s[b..];
    if b < |s| {
      assert buf[..][b] == t[0];
    }
    if buf[b] == '\'' {
      b := b + 1;
      assert s[b..] == t[1..];
      delim := FindEnd(buf, b, '\'', s);
    } else {
      delim := FindEnd(buf, b, ' ', s);
      if b == |s| {
        assert s[b..] == "";
      }
    }
  }

  /** argv points at the arguments, each a C string in the buffer, and ends with a NULL. */
  ghost predicate Points(buf: seq<char>, argv: seq<Option<nat>>, args: seq<string>) {
    && |args| < |argv| && argv[|args|] == None
    && forall i :: 0 <= i < |args| ==> argv[i].Some? && CString(buf, argv[i].value) == args[i]
  }

  /** The arguments found so far are finished C strings that end before b. */
  ghost predicate Finished(buf: seq<char>, argv: seq<Option<nat>>, args: seq<string>, b: nat) {
    && |args| <= |argv| && b <= |buf|
    && forall i :: 0 <= i < |args| ==>
         && argv[i].Some? && argv[i].value + |args[i]| < b && NUL !in args[i]
         && buf[argv[i].value..argv[i].value + |args[i]|] == args[i] && buf[argv[i].value + |args[i]|] == NUL
  }

  /** A NULL after the last argument, and perhaps another over it, makes argv point at what is left. */
  lemma FinishedPoints(buf: seq<char>, argv: seq<Option<nat>>, args: seq<string>, n: nat)
    requires Finished(buf, argv, args, |buf|) && n <= |args| < |argv|
    ensures Points(buf, argv[|args| := None][n := None], args[..n])
  {
    forall i | 0 <= i < n
      ensures CString(buf, argv[i].value) == args[i]
    {
      CStringIs(buf, argv[i].value, args[i]);
    }
  }

  /** Ending one more argument with a NUL keeps the earlier ones. */
  lemma FinishOneMore(buf: seq<char>, s: string, argv: seq<Option<nat>>, args: seq<string>, start: nat, b: nat, d: nat)
    requires Finished(buf, argv, args, start) && Holds(buf, s, start) && start <= b <= d < |s| && |args| < |argv|
    ensures Finished(buf[d := NUL], argv[|args| := Some(b)], args + [s[b..d]], d + 1) && Holds(buf[d := NUL], s, d + 1)
  {
    var buf', argv', args' := buf[d := NUL], argv[|args| := Some(b)], args + [s[b..d]];
    assert buf[b..d] == s[b..d];
    forall i | 0 <= i < |args'|
      ensures argv'[i].Some? && argv'[i].value + |args'[i]| < d + 1 && NUL !in args'[i]
      ensures buf'[argv'[i].value..argv'[i].value + |args'[i]|] == args'[i]
      ensures buf'[argv'[i].value + |args'[i]|] == NUL
    {
      if i < |args| {
        var from := argv[i].value;
        assert buf'[from..from + |args[i]|] == buf[from..from + |args[i]|];
      } else {
        assert buf'[b..d] == buf[b..d];
      }
    }
  }

  /** strcpy and the replacement of the last character. */
  method CopyLine(cmdline: string, buf: array<char>)
    requires 0 < |cmdline| < buf.Length && NUL !in cmdline
    modifies buf
    ensures Holds(buf[..], cmdline[..|cmdline| - 1] + " ", 0)
  {
    var i := 0;
    while i < |cmdline|
      invariant i <= |cmdline| && forall k :: 0 <= k < i ==> buf[k] == cmdline[k]
    {
      buf[i] := cmdline[i];
      i := i + 1;
    }
    buf[i] := NUL;
    buf[|cmdline| - 1] := ' ';
  }

  /** Where the parser's loop stands: the arguments before `start` are cut off, the text from there on
      is as it was, and together they are the arguments of the line. */
  ghost predicate CutUpTo(buf: seq<char>, argv: seq<Option<nat>>, s: string, args: seq<string>, start: nat) {
    && Holds(buf, s, start) && Finished(buf, argv, args, start)
    && Tokens(s) == args + Tokens(s[start..])
  }

  lemma OneMoreToken(s: string, args: seq<string>, start: nat, b: nat, d: nat)
    requires start <= b <= d < |s| && NextArg(s[start..]) == Found(s[b..d], s[d + 1..])
    requires Tokens(s) == args + Tokens(s[start..])
    ensures Tokens(s) == args + [s[b..d]] + Tokens(s[d + 1..])
  {
    assert Tokens(s[start..]) == [s[b..d]] + Tokens(s[d + 1..]);
    assert args + ([s[b..d]] + Tokens(s[d + 1..])) == args + [s[b..d]] + Tokens(s[d + 1..]);
  }

  lemma CutOneMore(buf: seq<char>, argv: seq<Option<nat>>, s: string, args: seq<string>, start: nat, b: nat, d: nat)
    requires CutUpTo(buf, argv, s, args, start) && start <= b <= d < |s| && |Tokens(s)| < |argv|
    requires NextArg(s[start..]) == Found(s[b..d], s[d + 1..])
    ensures |args| < |argv| && CutUpTo(buf[d := NUL], argv[|args| := Some(b)], s, args + [s[b..d]], d + 1)
  {
    OneMoreToken(s, args, start, b, d);
    assert |args| < |Tokens(s)|;
    FinishOneMore(buf, s, argv, args, start, b, d);
  }

  lemma CutOff(buf: seq<char>, argv: seq<Option<nat>>, s: string, args: seq<string>, start: nat)
    requires CutUpTo(buf, argv, s, args, start) && NextArg(s[start..]) == NoMore
    ensures Tokens(s) == args && Finished(buf, argv, args, |buf|)
  {
  }

  lemma CutNothing(buf: seq<char>, argv: seq<Option<nat>>, s: string)
    requires Holds(buf, s, 0)
    ensures CutUpTo(buf, argv, s, [], 0)
  {
    assert s[0..] == s;
  }

  /** Enter one argument in argv and end it with a NUL. */
  method CutHere(buf: array<char>, argv: array<Option<nat>>, ghost s: string, ghost args: seq<string>,
        ghost start: nat, argc: nat, b: nat, d: nat)
    requires argc == |args| && |Tokens(s)| < argv.Length && start <= b <= d < |s|
    requires CutUpTo(buf[..], argv[..], s, args, start) && NextArg(s[start..]) == Found(s[b..d], s[d + 1..])
    modifies buf, argv
    ensures CutUpTo(buf[..], argv[..], s, args + [s[b..d]], d + 1)
  {
    CutOneMore(buf[..], argv[..], s, args, start, b, d);
    argv[argc] := Some(b);
    buf[d] := NUL;
    assert buf[..] == old(buf[..])[d := NUL] && argv[..] == old(argv[..])[argc := Some(b)];
  }

  /** The next argument starts at b and ends before `delim`, if there is one. */
  ghost predicate NextIs(s: string, start: nat, b: nat, delim: Option<nat>) {
    && start <= b <= |s| && (delim.Some? ==> b <= delim.value < |s|)
    && NextArg(s[start..]) == match delim case None => NoMore case Some(d) => Found(s[b..d], s[d + 1..])
  }

  /** The body of the parser's loop. */
  method CutOne(buf: array<char>, argv: array<Option<nat>>, ghost s: string, ghost args: seq<string>,
        ghost start: nat, argc: nat, b: nat, d: nat)
    returns (b': nat, delim: Option<nat>, ghost more: seq<string>)
    requires argc == |args| && |Tokens(s)| < argv.Length && NextIs(s, start, b, Some(d))
    requires CutUpTo(buf[..], argv[..], s, args, start)
    modifies buf, argv
    ensures CutUpTo(buf[..], argv[..], s, more, d + 1) && |more| == argc + 1 && NextIs(s, d + 1, b', delim)
  {
    more := args + [s[b..d]];
    CutHere(buf, argv, s, args, start, argc, b, d);
    ghost var cutBuf, cutArgv := buf[..], argv[..];
    b', delim := NextToken(buf, d + 1, s);
    assert buf[..] == cutBuf && argv[..] == cutArgv;
  }

  /** The parser's loop: cut off one argument after another. */
  method CutAll(buf: array<char>, argv: array<Option<nat>>, ghost s: string) returns (argc: nat)
    requires Holds(buf[..], s, 0) && |Tokens(s)| < argv.Length
    modifies buf, argv
    ensures argc == |Tokens(s)| && Finished(buf[..], argv[..], Tokens(s), buf.Length)
  {
    argc := 0;
    ghost var args := [];
    ghost var start := 0;
    CutNothing(buf[..], argv[..], s);
    var b, delim := NextToken(buf, 0, s);
    while delim.Some?
      invariant argc == |args| && NextIs(s, start, b, delim)
      invariant CutUpTo(buf[..], argv[..], s, args, start)
      decreases |s| - start, delim.Some?
    {
      var d := delim.value;
      b, delim, args := CutOne(buf, argv, s, args, start, argc, b, d);
      argc := argc + 1;
      start := d + 1;
    }
    CutOff(buf[..], argv[..], s, args, start);
  }

  lemma LastArgument(buf: seq<char>, argv: seq<Option<nat>>, args: seq<string>)
    requires Finished(buf, argv, args, |buf|) && args != [] && |args| < |argv|
    ensures var last := args[|args| - 1];
      buf[argv[|args| - 1].value] == '&' <==> last != "" && last[0] == '&'
  {
    var last, from := args[|args| - 1], argv[|args| - 1].value;
    if last != "" {
      assert buf[from..from + |last|][0] == last[0];
    }
  }

  /** On return argv points at exactly the arguments that the line means, and the result says whether
      the job goes to the background. The caller's argv has room for MAXARGS pointers. */
  method ParseCommand(cmdline: string, buf: array<char>, argv: array<Option<nat>>) returns (bg: bool)
    requires buf.Length == MAXLINE && 0 < |cmdline| < MAXLINE && NUL !in cmdline
    requires argv.Length == MAXARGS && |Tokens(cmdline[..|cmdline| - 1] + " ")| < MAXARGS
    modifies buf, argv
    ensures bg == Parse(cmdline).bg
    ensures Points(buf[..], argv[..], Parse(cmdline).args)
  {
    ghost var s := cmdline[..|cmdline| - 1] + " ";
    CopyLine(cmdline, buf);
    var argc := CutAll(buf, argv, s);
    ghost var args, cut := Tokens(s), argv[..];
    argv[argc] := None;
    FinishedPoints(buf[..], cut, args, argc);
    assert args[..argc] == args;
    assert argv[..] == cut[argc := None][argc := None];
    if argc == 0 {
      return true;
    }
    var last := argv[argc - 1].value;
    bg := buf[last] == '&';
    LastArgument(buf[..], cut, args);
    if bg {
      argc := argc - 1;
      argv[argc] := None;
      FinishedPoints(buf[..], cut, args, argc);
      assert argv[..] == cut[argc + 1 := None][argc := None];
    }
  }
}
