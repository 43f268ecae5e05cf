/** The server's commands and its session loop.  What the operating system answers
    is a parameter of each exchange; replies are values, one for each format the
    server prints, and only the process report is text. */
module Server {
  import opened CText
  import opened CBuffer
  import opened Decimal
  import opened Argv
  import opened Options
  import opened PsReport
  import opened Requests
  import opened Tokens
  import opened Verbs

  const BUFFER_SIZE: nat := 65536
  const COMMAND_MAX: nat := 1024
  const INT_MAX: nat := 0x7fff_ffff

  datatype KillResult = Done | NoSuchProcess | NotPermitted | OtherError

  datatype WaitResult = StillRunning | ExitedWith(code: int) | DiedOddly | WaitFailed

  datatype ForkResult = ForkFailed | Forked(pid: int, wait: WaitResult)

  /** What the system answers during one exchange.  `atoiOverflow` is what `atoi` makes
      of a numeral whose value no `int` can hold, which the C standard leaves open. */
  datatype Os = Os(ps: Option<string>, atoiOverflow: int, probe: KillResult, kill: KillResult, fork: ForkResult)

  datatype Signal = Probe(pid: int) | Kill(pid: int)

  datatype Reply =
    | EmptyCommand
    | UnknownCommand(word: string)
    | Goodbye
    | Report(text: string)
    | StartNeedsCommand
    | StartEmpty
    | CommandTooLong
    | CommandBlocked
    | NoFork
    | Started(command: string, pid: int)
    | EndedAtOnce(command: string, code: int)
    | EndedOddly(command: string)
    | StopNeedsPid
    | PidMissing
    | PidNotNumber(text: string)
    | PidNotPositive(value: int)
    | PidIsInit
    | NoProcess(pid: int)
    | NoPermission(pid: int)
    | NotAccessible(pid: int)
    | Stopped(pid: int)
    | StopFailed(pid: int)

  /** The reply, the signals sent, and the argument vector a new child runs. */
  datatype Outcome = Outcome(reply: Reply, signals: seq<Signal>, exec: Option<seq<string>>)

  function Answer(reply: Reply): Outcome {
    Outcome(reply, [], None)
  }

  // ----- STOP -----

  function Atoi(digits: string, overflow: int): int {
    if Value(digits) <= INT_MAX then Value(digits) else overflow
  }

  function KillOutcome(pid: int, os: Os): Outcome {
    match os.probe
    case NoSuchProcess => Outcome(NoProcess(pid), [Probe(pid)], None)
    case NotPermitted => Outcome(NoPermission(pid), [Probe(pid)], None)
    case OtherError => Outcome(NotAccessible(pid), [Probe(pid)], None)
    case Done =>
      match os.kill
      case Done => Outcome(Stopped(pid), [Probe(pid), Kill(pid)], None)
      case NotPermitted => Outcome(NoPermission(pid), [Probe(pid), Kill(pid)], None)
      case _ => Outcome(StopFailed(pid), [Probe(pid), Kill(pid)], None)
  }

  function StopOutcome(arg: Option<string>, os: Os): Outcome {
    if arg.None? || arg.value == "" then Answer(PidMissing)
    else if !AllDigits(arg.value) then Answer(PidNotNumber(arg.value))
    else
      var pid := Atoi(arg.value, os.atoiOverflow);
      if pid <= 0 then Answer(PidNotPositive(pid))
      else if pid == 1 then Answer(PidIsInit)
      else KillOutcome(pid, os)
  }

  method StopProcess(pidStr: Option<string>, os: Os) returns (reply: Reply, signals: seq<Signal>)
    ensures Outcome(reply, signals, None) == StopOutcome(pidStr, os)
  {
    signals := [];
    if pidStr.None? || |pidStr.value| == 0 {
      return PidMissing, signals;
    }
    var text := pidStr.value;
    var i := 0;
    while i < |text|
      invariant i <= |text| && forall k :: 0 <= k < i ==> IsDigit(text[k])
    {
      if !IsDigit(text[i]) {
        return PidNotNumber(text), signals;
      }
      i := i + 1;
    }
    var pid := Atoi(text, os.atoiOverflow);
    if pid <= 0 {
      return PidNotPositive(pid), signals;
    }
    if pid == 1 {
      return PidIsInit, signals;
    }
    signals := [Probe(pid)];
    if os.probe != Done {
      reply := if os.probe == NoSuchProcess then NoProcess(pid)
               else if os.probe == NotPermitted then NoPermission(pid) else NotAccessible(pid);
      return;
    }
    signals := signals + [Kill(pid)];
    if os.kill == Done {
      reply := Stopped(pid);
    } else {
      reply := if os.kill == NotPermitted then NoPermission(pid) else StopFailed(pid);
    }
  }

  ghost predicate Kills(arg: Option<string>, os: Os, pid: int) {
    Kill(pid) in StopOutcome(arg, os).signals
  }

  /** A kill is sent at most once, only after a probe of the same pid that succeeded, only
      for an all-digit argument, and never to pid 0, pid 1 or a negative pid. */
  lemma KillIsGuarded(arg: Option<string>, os: Os, pid: int)
    requires Kills(arg, os, pid)
    ensures arg.Some? && arg.value != "" && AllDigits(arg.value)
    ensures pid >= 2 && os.probe == Done
    ensures StopOutcome(arg, os).signals == [Probe(pid), Kill(pid)]
    ensures Value(arg.value) <= 0x7fff_ffff ==> pid == Value(arg.value)
  {
  }

  /** STOP kills exactly the process that `atoi` makes of an all-digit argument, if that is
      at least 2 and the probe finds it. */
  lemma KillExact(arg: string, os: Os, pid: int)
    requires arg != ""
    ensures Kills(Some(arg), os, pid) <==>
            AllDigits(arg) && pid == Atoi(arg, os.atoiOverflow) && pid >= 2 && os.probe == Done
  {
    hide Value;
    var v := Atoi(arg, os.atoiOverflow);
    var s := KillOutcome(v, os).signals;
    assert s == [Probe(v)] || s == [Probe(v), Kill(v)];
    assert os.probe == Done ==> s[1] == Kill(v);
  }

  /** The client is told that a process was stopped exactly when the kill sent to it succeeded. */
  lemma StoppedExact(arg: Option<string>, os: Os, pid: int)
    ensures StopOutcome(arg, os).reply == Stopped(pid) <==> Kills(arg, os, pid) && os.kill == Done
  {
    if arg.Some? && AllDigits(arg.value) {
      var v := Atoi(arg.value, os.atoiOverflow);
      var s := KillOutcome(v, os).signals;
      assert s == [Probe(v)] || s == [Probe(v), Kill(v)];
      if s == [Probe(v), Kill(v)] {
        assert s[1] == Kill(v);
      }
    }
  }

  /** No system answer can make a numeral kill another process than the one it names,
      exactly when an `int` can hold its value. */
  lemma KillNamesItsPid(text: string)
    requires AllDigits(text) && text != ""
    ensures (forall os, pid :: Kills(Some(text), os, pid) ==> pid == Value(text)) <==> Value(text) <= 0x7fff_ffff
  {
    if Value(text) > INT_MAX {
      var os := Os(None, 2, Done, Done, ForkFailed);
      assert StopOutcome(Some(text), os).signals[1] == Kill(2);
      assert Kills(Some(text), os, 2);
    } else {
      forall os, pid | Kills(Some(text), os, pid) ensures pid == Value(text) {
        KillExact(text, os, pid);
      }
    }
  }

  /** With an `atoi` that keeps the low 32 bits, 4294967298 kills process 2. */
  lemma OverflowKillsAnother(os: Os)
    requires os.atoiOverflow == 0x1_0000_0002 % 0x1_0000_0000 && os.probe == Done
    ensures Value(Digits(0x1_0000_0002)) == 4294967298 && Kills(Some(Digits(0x1_0000_0002)), os, 2)
  {
    hide Value, Digits;
    ValueOfDigits(0x1_0000_0002);
    assert StopOutcome(Some(Digits(0x1_0000_0002)), os).signals[1] == Kill(2);
  }

  /** Leading zeros do not change the pid. */
  lemma {:induction false} LeadingZero(text: string)
    ensures Value("0" + text) == Value(text)
    decreases |text|
  {
    if text == "" {
      assert ("0" + text)[..0] == "";
    } else {
      var front := text[..|text| - 1];
      LeadingZero(front);
      assert ("0" + text)[..|text|] == "0" + front;
    }
  }

  // ----- START -----

  const BLOCKED: seq<string> :=
    ["rm -rf /", "mkfs", "dd if=/dev/zero", ":(){ :|:& };:", "chmod -R 777 /", "chown -R", "> /dev/sda", "mv / "]

  predicate PartAt(text: string, part: string, i: nat) {
    i + |part| <= |text| && text[i..i + |part|] == part
  }

  predicate Contains(text: string, part: string) {
    exists i :: 0 <= i <= |text| && PartAt(text, part, i)
  }

  predicate IsBlocked(command: string) {
    exists k :: 0 <= k < |BLOCKED| && Contains(command, BLOCKED[k])
  }

  function WaitReply(command: string, pid: int, wait: WaitResult): Reply {
    match wait
    case ExitedWith(code) => EndedAtOnce(command, code)
    case DiedOddly => EndedOddly(command)
    case _ => Started(command, pid)
  }

  function StartOutcome(arg: Option<string>, os: Os): Outcome {
    if arg.None? || arg.value == "" then Answer(StartEmpty)
    else if |arg.value| > COMMAND_MAX then Answer(CommandTooLong)
    else if IsBlocked(arg.value) then Answer(CommandBlocked)
    else
      match os.fork
      case ForkFailed => Answer(NoFork)
      case Forked(pid, wait) =>
        Outcome(WaitReply(arg.value, pid, wait), [], if ArgvOf(arg.value) == [] then None else Some(ArgvOf(arg.value)))
  }

  method StrStr(text: string, part: string) returns (found: bool)
    ensures found <==> Contains(text, part)
  {
    found := false;
    var i := 0;
    while i + |part| <= |text| && !found
      invariant found ==> Contains(text, part)
      invariant !found ==> forall k :: 0 <= k < i ==> !PartAt(text, part, k)
    {
      found := PartAt(text, part, i);
      i := i + 1;
    }
  }

  method StartProcess(command: Option<string>, os: Os) returns (reply: Reply, exec: Option<seq<string>>)
    requires command.Some? ==> NUL !in command.value
    ensures Outcome(reply, [], exec) == StartOutcome(command, os)
  {
    exec := None;
    if command.None? || |command.value| == 0 {
      return StartEmpty, exec;
    }
    var text := command.value;
    if |text| > COMMAND_MAX {
      return CommandTooLong, exec;
    }
    var blocked := BLOCKED;
    var i := 0;
    while i < |blocked|
      invariant i <= |blocked| && forall k :: 0 <= k < i ==> !Contains(text, blocked[k])
    {
      var found := StrStr(text, blocked[i]);
      if found {
        return CommandBlocked, exec;
      }
      i := i + 1;
    }
    assert !IsBlocked(text);
    match os.fork
    case ForkFailed =>
      reply := NoFork;
    case Forked(pid, wait) =>
      exec := Child(text);
      reply := if wait.ExitedWith? then EndedAtOnce(text, wait.code)
               else if wait.DiedOddly? then EndedOddly(text) else Started(text, pid);
  }

  /** The child's half of a fork: the vector it runs, unless there is no argument. */
  method Child(command: string) returns (exec: Option<seq<string>>)
    requires NUL !in command
    ensures exec == if ArgvOf(command) == [] then None else Some(ArgvOf(command))
  {
    hide ArgvOf;
    var copy, args, n := BuildArgv(command);
    if n == 0 {
      return None;
    }
    var argv: seq<string> := [];
    while |argv| < n
      modifies {}
      invariant |argv| <= n && argv == ArgvOf(command)[..|argv|]
    {
      ghost var w := ArgvOf(command)[|argv|];
      ArgvNoNul(command);
      var arg := ReadString(copy, args[|argv|].value, w);
      argv := argv + [arg];
    }
    assert argv == ArgvOf(command);
    exec := Some(argv);
  }

  // ----- One exchange -----

  function Respond(chunk: string, os: Os): Outcome {
    var r := SplitRequest(chunk);
    if r.cmd.None? then Answer(EmptyCommand)
    else
      match VerbOf(r.cmd.value)
      case List =>
        Answer(Report(if os.ps.None? then Snprintf(BUFFER_SIZE, PS_FAILED)
                      else PsReport.Report(BUFFER_SIZE, "", os.ps.value)))
      case Start => if r.arg.None? then Answer(StartNeedsCommand) else StartOutcome(r.arg, os)
      case Stop => if r.arg.None? then Answer(StopNeedsPid) else StopOutcome(r.arg, os)
      case Exit => Answer(Goodbye)
      case Unknown => Answer(UnknownCommand(r.cmd.value))
  }

  // ----- Which reply is given when -----

  predicate HasVerb(r: Request, v: Verb) {
    r.cmd.Some? && VerbOf(r.cmd.value) == v
  }

  /** The request is a STOP of a numeral that stands for process `pid`, which may be stopped. */
  predicate StopsPid(r: Request, os: Os, pid: int) {
    && HasVerb(r, Stop) && r.arg.Some? && AllDigits(r.arg.value)
    && pid == Atoi(r.arg.value, os.atoiOverflow) && pid >= 2
  }

  /** The replies that tell what became of a STOP, exactly: what the probe found, and then what
      the kill did. */
  lemma StopReplies(chunk: string, os: Os, pid: int)
    ensures var r, reply := SplitRequest(chunk), Respond(chunk, os).reply;
            && (reply == NoProcess(pid) <==> StopsPid(r, os, pid) && os.probe == NoSuchProcess)
            && (reply == NoPermission(pid) <==>
                  StopsPid(r, os, pid) && (os.probe == NotPermitted || (os.probe == Done && os.kill == NotPermitted)))
            && (reply == NotAccessible(pid) <==> StopsPid(r, os, pid) && os.probe == OtherError)
            && (reply == Stopped(pid) <==> StopsPid(r, os, pid) && os.probe == Done && os.kill == Done)
            && (reply == StopFailed(pid) <==>
                  StopsPid(r, os, pid) && os.probe == Done && (os.kill == NoSuchProcess || os.kill == OtherError))
  {
    hide SplitRequest, VerbOf, IsBlocked, AllDigits, Atoi, PsReport.Report;
    RequestNoNul(chunk);
  }

  /** The replies that refuse a STOP, exactly. */
  lemma StopRefusals(chunk: string, os: Os, text: string, value: int)
    ensures var r, reply := SplitRequest(chunk), Respond(chunk, os).reply;
            var numeral := HasVerb(r, Stop) && r.arg.Some? && AllDigits(r.arg.value);
            && (reply == StopNeedsPid <==> HasVerb(r, Stop) && r.arg.None?)
            && (reply == PidNotNumber(text) <==> HasVerb(r, Stop) && r.arg == Some(text) && !AllDigits(text))
            && (reply == PidNotPositive(value) <==>
                  numeral && value == Atoi(r.arg.value, os.atoiOverflow) && value <= 0)
            && (reply == PidIsInit <==> numeral && Atoi(r.arg.value, os.atoiOverflow) == 1)
            && reply != PidMissing
  {
    hide SplitRequest, VerbOf, IsBlocked, AllDigits, Atoi, PsReport.Report;
    RequestNoNul(chunk);
  }

  /** The request is a START of a command that the server runs. */
  predicate StartsCommand(r: Request, command: string) {
    HasVerb(r, Start) && r.arg == Some(command) && |command| <= 1024 && !IsBlocked(command)
  }

  /** The replies that tell what became of a START, exactly: whether there is a child, and what
      was found when it was waited for. */
  lemma StartReplies(chunk: string, os: Os, command: string, pid: int, code: int)
    ensures var r, reply := SplitRequest(chunk), Respond(chunk, os).reply;
            var starts := StartsCommand(r, command);
            && (reply == Started(command, pid) <==>
                  starts && (os.fork == Forked(pid, StillRunning) || os.fork == Forked(pid, WaitFailed)))
            && (reply == EndedAtOnce(command, code) <==> starts && os.fork.Forked? && os.fork.wait == ExitedWith(code))
            && (reply == EndedOddly(command) <==> starts && os.fork.Forked? && os.fork.wait == DiedOddly)
            && (starts ==> (reply == NoFork <==> os.fork == ForkFailed))
  {
    hide SplitRequest, VerbOf, IsBlocked, AllDigits, Atoi, PsReport.Report;
    RequestNoNul(chunk);
  }

  /** The replies that refuse a START, exactly. */
  lemma StartRefusals(chunk: string, os: Os)
    ensures var r, reply := SplitRequest(chunk), Respond(chunk, os).reply;
            var argued := HasVerb(r, Start) && r.arg.Some?;
            && (reply == StartNeedsCommand <==> HasVerb(r, Start) && r.arg.None?)
            && (reply == CommandTooLong <==> argued && |r.arg.value| > 1024)
            && (reply == CommandBlocked <==> argued && |r.arg.value| <= 1024 && IsBlocked(r.arg.value))
            && (reply == NoFork <==> argued && StartsCommand(r, r.arg.value) && os.fork == ForkFailed)
            && reply != StartEmpty
  {
    hide SplitRequest, VerbOf, IsBlocked, AllDigits, Atoi, PsReport.Report;
    RequestNoNul(chunk);
  }

  /** What a child runs, exactly: the words of the first 1023 bytes of its command, at most 15. */
  lemma ExecExact(chunk: string, os: Os, argv: seq<string>)
    ensures Respond(chunk, os).exec == Some(argv) <==>
            var r := SplitRequest(chunk);
            && r.arg.Some? && StartsCommand(r, r.arg.value) && os.fork.Forked?
            && argv != [] && argv == First(Words(First(r.arg.value, 1023)), 15)
  {
    hide SplitRequest, VerbOf, IsBlocked, AllDigits, Atoi, PsReport.Report, Words;
    RequestNoNul(chunk);
  }

  /** The other replies, exactly: a report for LIST, the farewell for EXIT, and a word that is
      no synonym named as unknown. */
  lemma OtherReplies(chunk: string, os: Os, word: string, text: string)
    ensures var r, reply := SplitRequest(chunk), Respond(chunk, os).reply;
            && (reply == EmptyCommand <==> r.cmd.None?)
            && (reply == Goodbye <==> HasVerb(r, Exit))
            && (reply == UnknownCommand(word) <==> HasVerb(r, Unknown) && r.cmd == Some(word))
            && (reply == Report(text) <==>
                  HasVerb(r, List) &&
                  text == match os.ps
                          case None => "Error: Failed to run ps command\n"
                          case Some(ps) => PsReport.Report(65536, "", ps))
  {
    hide SplitRequest, VerbOf, IsBlocked, AllDigits, Atoi, PsReport.Report;
    RequestNoNul(chunk);
  }

  /** The commands that are refused as dangerous: those that hold one of these texts. */
  lemma BlockedExact(command: string)
    ensures IsBlocked(command) <==>
            || Contains(command, "rm -rf /") || Contains(command, "mkfs") || Contains(command, "dd if=/dev/zero")
            || Contains(command, ":(){ :|:& };:") || Contains(command, "chmod -R 777 /")
            || Contains(command, "chown -R") || Contains(command, "> /dev/sda") || Contains(command, "mv / ")
  {
    hide Contains;
    assert |BLOCKED| == 8;
    assert BLOCKED[0] == "rm -rf /" && BLOCKED[1] == "mkfs" && BLOCKED[2] == "dd if=/dev/zero";
    assert BLOCKED[3] == ":(){ :|:& };:" && BLOCKED[4] == "chmod -R 777 /" && BLOCKED[5] == "chown -R";
    assert BLOCKED[6] == "> /dev/sda" && BLOCKED[7] == "mv / ";
  }

  /** A text holds another one exactly when it is that text with something around it. */
  lemma ContainsExact(text: string, part: string)
    ensures Contains(text, part) <==> exists x, y :: text == x + part + y
  {
    if Contains(text, part) {
      var i :| 0 <= i <= |text| && PartAt(text, part, i);
      assert text == text[..i] + part + text[i + |part|..];
    }
    forall x, y | text == x + part + y ensures Contains(text, part) {
      assert PartAt(text, part, |x|);
    }
  }

  /** A received chunk with the system's answers to it. */
  datatype Exchange = Exchange(chunk: string, os: Os)

  predicate IsChunk(chunk: string) {
    0 < |chunk| < BUFFER_SIZE
  }

  /** The outcomes of a session: one for each chunk, up to the first Goodbye. */
  function Session(xs: seq<Exchange>): (out: seq<Outcome>)
    ensures |out| <= |xs|
  {
    if xs == [] then []
    else
      var o := Respond(xs[0].chunk, xs[0].os);
      if o.reply == Goodbye then [o] else [o] + Session(xs[1..])
  }

  /** One pass of the receive loop over the server's own buffers. */
  method HandleChunk(buffer: array<char>, response: array<char>, chunk: string, os: Os)
    returns (o: Outcome)
    requires buffer.Length == BUFFER_SIZE && response.Length == BUFFER_SIZE && buffer != response
    requires IsChunk(chunk)
    modifies buffer, response
    ensures o == Respond(chunk, os)
  {
    hide SplitRequest, StopOutcome, StartOutcome, PsReport.Report;
    Fill(buffer, chunk);
    var r := Split(buffer, |chunk|);
    RequestNoNul(chunk);
    if r.cmd.None? || |r.cmd.value| == 0 {
      return Answer(EmptyCommand);
    }
    var verb := Normalize(r.cmd.value);
    if verb == "LIST" {
      ListProcesses(response, os.ps);
      var text := Contents(response);
      o := Answer(Report(text));
    } else if verb == "START" {
      if r.arg.Some? && |r.arg.value| > 0 {
        var reply, exec := StartProcess(r.arg, os);
        o := Outcome(reply, [], exec);
      } else {
        o := Answer(StartNeedsCommand);
      }
    } else if verb == "STOP" {
      if r.arg.Some? && |r.arg.value| > 0 {
        var reply, signals := StopProcess(r.arg, os);
        o := Outcome(reply, signals, None);
      } else {
        o := Answer(StopNeedsPid);
      }
    } else if verb == "EXIT" {
      o := Answer(Goodbye);
    } else {
      o := Answer(UnknownCommand(r.cmd.value));
    }
  }

  lemma RequestNoNul(chunk: string)
    ensures var r := SplitRequest(chunk);
            && (r.cmd.Some? ==> r.cmd.value != "" && NUL !in r.cmd.value)
            && (r.arg.Some? ==> r.arg.value != "" && NUL !in r.arg.value)
  {
    SplitShape(CommandLine(chunk));
    CommandLineUnbroken(chunk);
  }

  lemma ArgvNoNul(command: string)
    requires NUL !in command
    ensures forall i :: 0 <= i < |ArgvOf(command)| ==> NUL !in ArgvOf(command)[i]
  {
    var text := CopyOf(command);
    WordsFrom(text);
    assert text <= command;
    assert NUL !in text;
  }

  method Normalize(cmd: string) returns (verb: string)
    requires NUL !in cmd
    ensures verb == Normalized(cmd)
  {
    var normalized := new char[VERB_SIZE];
    NormalizeCommand(cmd, normalized);
    verb := Contents(normalized);
  }

  method Contents(buf: array<char>) returns (s: string)
    requires NUL in buf[..]
    ensures s == CStr(buf[..])
  {
    var n := Strlen(buf);
    s := buf[..n];
  }

  /** The receive loop: what it sent, with the effects of each exchange, in order. */
  method HandleClient(xs: seq<Exchange>) returns (trace: seq<Outcome>)
    requires forall i :: 0 <= i < |xs| ==> IsChunk(xs[i].chunk)
    ensures trace == Session(xs)
  {
    hide Respond;
    var buffer, response := new char[BUFFER_SIZE], new char[BUFFER_SIZE];
    trace := [];
    var k := 0;
    while k < |xs|
      invariant k <= |xs| && Session(xs) == trace + Session(xs[k..])
    {
      var o := HandleChunk(buffer, response, xs[k].chunk, xs[k].os);
      assert xs[k..][1..] == xs[k + 1..];
      trace := trace + [o];
      if o.reply == Goodbye {
        break;
      }
      k := k + 1;
    }
  }

  // ----- The trace of a session -----

  /** Every chunk received gets exactly one reply, the one its command line determines,
      until an EXIT-class verb, after whose reply nothing is sent. */
  lemma {:induction false} SessionTrace(xs: seq<Exchange>)
    ensures var out := Session(xs);
            && (forall i :: 0 <= i < |out| ==> out[i] == Respond(xs[i].chunk, xs[i].os))
            && (forall i :: 0 <= i < |out| - 1 ==> out[i].reply != Goodbye)
            && (|out| < |xs| ==> out != [] && out[|out| - 1].reply == Goodbye)
    decreases |xs|
  {
    hide Respond;
    if xs != [] && Respond(xs[0].chunk, xs[0].os).reply != Goodbye {
      SessionTrace(xs[1..]);
    }
  }

  /** The session ends with a Goodbye exactly for EXIT and its synonyms, in any letter case. */
  lemma GoodbyeExact(chunk: string, os: Os)
    ensures Respond(chunk, os).reply == Goodbye <==>
            SplitRequest(chunk).cmd.Some? && IsExitWord(Upper(SplitRequest(chunk).cmd.value))
  {
    hide SplitRequest, VerbOf, IsExitWord, IsStopWord, IsStartWord, IsListWord;
    hide IsBlocked, AllDigits, Atoi, ArgvOf, PsReport.Report;
    if SplitRequest(chunk).cmd.Some? {
      VerbExact(SplitRequest(chunk).cmd.value);
    }
  }

  /** Over a whole session, an exchange kills a process if and only if its command word is a
      STOP synonym, in any letter case, its argument is all digits and stands for that
      process, which is neither 0 nor 1, and the probe finds it. */
  lemma SessionKills(xs: seq<Exchange>, i: nat, pid: int)
    requires i < |Session(xs)|
    ensures var r, os := SplitRequest(xs[i].chunk), xs[i].os;
            Kill(pid) in Session(xs)[i].signals <==>
            && r.cmd.Some? && IsStopWord(Upper(r.cmd.value))
            && r.arg.Some? && AllDigits(r.arg.value) && pid == Atoi(r.arg.value, os.atoiOverflow)
            && pid >= 2 && os.probe == Done
  {
    hide Session, SplitRequest, Value, StopOutcome, StartOutcome, VerbOf, Atoi, AllDigits;
    SessionTrace(xs);
    var r, os := SplitRequest(xs[i].chunk), xs[i].os;
    assert Session(xs)[i] == Respond(xs[i].chunk, os);
    RequestNoNul(xs[i].chunk);
    VerbExact(if r.cmd.Some? then r.cmd.value else "");
    if r.arg.Some? {
      KillExact(r.arg.value, os, pid);
      assert StartOutcome(r.arg, os).signals == [] by {
        StartSendsNothing(r.arg, os);
      }
    }
  }

  lemma StartSendsNothing(arg: Option<string>, os: Os)
    ensures StartOutcome(arg, os).signals == []
  {
    hide IsBlocked;
  }

  /** A chunk with several lines gets the reply to its first line only. */
  lemma OneReplyPerChunk(line: string, stop: char, more: string, os: Os)
    requires Unbroken(line) && !InLine(stop)
    ensures Respond(line + [stop] + more, os) == Respond(line, os)
  {
    hide VerbOf, StartOutcome, StopOutcome, PsReport.Report, CommandLine, SplitLine;
    LaterLinesIgnored(line, stop, more);
    CommandLineOf(line, "");
    assert line + "" == line;
  }

  /** A chunk of blanks, or one that starts with a line break, is answered as an empty command, and only such. */
  lemma EmptyCommandExact(chunk: string, os: Os)
    ensures Respond(chunk, os).reply == EmptyCommand <==>
            forall i :: 0 <= i < |CommandLine(chunk)| ==> CommandLine(chunk)[i] == ' '
  {
    hide SplitRequest, StopOutcome, StartOutcome, PsReport.Report, CommandLine, VerbOf;
    NoCommandWord(chunk);
    NeverEmptyCommand(SplitRequest(chunk).arg, os);
  }

  lemma NeverEmptyCommand(arg: Option<string>, os: Os)
    ensures StopOutcome(arg, os).reply != EmptyCommand && StartOutcome(arg, os).reply != EmptyCommand
  {
  }
}
