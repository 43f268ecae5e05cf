/** What the two programs do together, from keys to signals and arguments. */
module EndToEnd {
  import opened CText
  import opened Decimal
  import opened Delivery
  import opened Options
  import opened InputLines
  import opened ProcessText
  import opened Tokens
  import opened Argv
  import opened Verbs
  import opened Requests
  import opened Server
  import CM = ClientModel
  import CR = ClientRuns

  // ----- Keys to a command -----

  /** The events press the keys of a printable text. */
  predicate Spells(es: seq<CM.Event>, text: string) {
    |es| == |text| && forall i :: 0 <= i < |text| ==> es[i].ch == text[i] as int
  }

  /** Typing printable text only makes the line longer. */
  lemma {:induction false} TypeText(c: CM.Client, es: seq<CM.Event>, text: string)
    requires c.running && c.line.after == "" && Spells(es, text)
    requires forall i :: 0 <= i < |text| ==> IsPrint(text[i])
    requires |c.line.before| + |text| <= TEXT_MAX
    ensures CM.Run(c, es) == c.(line := Line(c.line.before + text, ""))
    decreases |es|
  {
    if text == "" {
      assert c.line.before + "" == c.line.before;
    } else {
      var d := CM.Step(c, es[0]);
      assert d == c.(line := Line(c.line.before + [text[0]], "")) by {
        TypeOne(c, es[0], text[0]);
      }
      TypeText(d, es[1..], text[1..]);
      assert c.line.before + [text[0]] + text[1..] == c.line.before + text;
    }
  }

  lemma TypeOne(c: CM.Client, e: CM.Event, k: char)
    requires c.line.after == "" && e.ch == k as int && IsPrint(k) && |c.line.before| < TEXT_MAX
    ensures CM.Step(c, e) == c.(line := Line(c.line.before + [k], ""))
  {
    hide CM.HandleCommand, CM.Idle, CM.LaunchDialog, CM.ScrollStep;
    assert c.line.Text() == c.line.before;
  }

  /** Typing a text and Enter handles its upper-case form as the next command. */
  lemma TypeCommand(c: CM.Client, es: seq<CM.Event>, enter: CM.Event, text: string)
    requires c.running && c.line == EMPTY && Spells(es, text) && enter.ch == 10
    requires text != "" && IsPending(text)
    ensures CM.Run(c, es + [enter]).acts == c.acts + [CM.Handled(Upper(text), CM.Message(Upper(text)))]
  {
    hide CM.Step, CM.Run, CM.Message;
    TypeText(c, es, text);
    var d := c.(line := Line(text, ""));
    assert "" + text == text;
    CM.RunAppend(c, es, [enter]);
    CM.RunOne(d, enter);
    EnterCommand(d, enter, text);
  }

  lemma EnterCommand(c: CM.Client, enter: CM.Event, text: string)
    requires c.line == Line(text, "") && text != "" && enter.ch == 10
    ensures CM.Step(c, enter).acts == c.acts + [CM.Handled(Upper(text), CM.Message(Upper(text)))]
  {
    hide CM.HandleCommand, CM.Idle, CM.LaunchDialog, CM.ScrollStep, CM.Message;
    var l := PressKey(c.line, 10).0;
    assert c.line.Text() == text && Upper("") == "";
    assert l.Text() == Upper(text);
    CM.HandleCommandActs(c.(line := l), l.Text(), enter);
  }

  // ----- STOP -----

  /** A framed STOP with a numeral reaches the kill of exactly that process. */
  lemma StopMessage(pid: nat, os: Os)
    requires 2 <= pid <= 0x7fff_ffff
    ensures Respond("STOP " + Digits(pid) + [NEWLINE], os) == KillOutcome(pid, os)
  {
    hide Digits, Value, Respond, CommandLine;
    var digits := Digits(pid);
    ValueOfDigits(pid);
    assert IsWord("STOP") && Unbroken("STOP");
    assert Unbroken(digits) by {
      forall i | 0 <= i < |digits| ensures InLine(digits[i]) {
        assert IsDigit(digits[i]);
      }
    }
    FramingRoundTrip("STOP", digits);
    assert "STOP" + " " == "STOP ";
    StopVerb();
    RespondStop("STOP " + digits + [NEWLINE], digits, os);
  }

  lemma StopVerb()
    ensures VerbOf("STOP") == Stop && VerbOf("START") == Start
  {
    hide VerbOf;
    VerbExact("STOP");
    VerbExact("START");
    assert Upper("STOP") == "STOP" && Upper("START") == "START";
  }

  lemma RespondStop(chunk: string, arg: string, os: Os)
    requires SplitRequest(chunk) == Request(Some("STOP"), Some(arg)) && VerbOf("STOP") == Stop
    ensures Respond(chunk, os) == StopOutcome(Some(arg), os)
  {
    hide SplitRequest, StopOutcome, VerbOf;
  }

  /** For every pid an `int` can hold from 2 on, such as any the client has parsed from a
      list, typing STOP and the pid's digits in any letter case sends one message, and the
      server answers it by probing and, if the probe finds it, killing exactly that pid. */
  lemma TypedStopKillsThatPid(c: CM.Client, es: seq<CM.Event>, enter: CM.Event, text: string, pid: nat, os: Os)
    requires c.running && c.line == EMPTY && Spells(es, text) && enter.ch == 10
    requires 2 <= pid <= 0x7fff_ffff && Upper(text) == "STOP " + Digits(pid)
    requires forall i :: 0 <= i < |text| ==> IsPrint(text[i])
    ensures var msg := "STOP " + Digits(pid) + [NEWLINE];
            && CM.Run(c, es + [enter]).acts == c.acts + [CM.Handled(Upper(text), Some(msg))]
            && Respond(msg, os) == KillOutcome(pid, os)
            && (Kill(pid) in Respond(msg, os).signals <==> os.probe == Done)
  {
    hide CM.Run, Respond, Digits;
    assert pid < Pow10(10) by {
      assert Pow10(10) == 10_000_000_000 by {
        PowTen();
      }
    }
    DigitsLength(pid, 10);
    var cmd := Upper(text);
    assert |text| == |cmd| <= 15;
    TypeCommand(c, es, enter, text);
    assert cmd[0] == 'S' && cmd != "HELP" && cmd != "EXIT" && !("RUN " <= cmd);
    CR.FramingLimits(cmd);
    assert CM.Message(cmd) == Some(cmd + [NEWLINE]);
    StopMessage(pid, os);
  }

  /** The server does not put split messages together.  If only the first `k` digits of a STOP
      message have arrived, it acts on their value: the pid without its last digits, which
      is the pid meant exactly when all the digits are there. */
  lemma FragmentedStop(pid: nat, k: nat, os: Os)
    requires 2 <= pid <= 0x7fff_ffff && 0 < k <= |Digits(pid)|
    ensures var part := ("STOP " + Digits(pid) + [NEWLINE])[..5 + k];
            var q := DropDigits(pid, |Digits(pid)| - k);
            && Respond(part, os) == StopOutcome(Some(Digits(pid)[..k]), os)
            && (forall r :: Kill(r) in Respond(part, os).signals <==> r == q && q >= 2 && os.probe == Done)
            && (q == pid <==> k == |Digits(pid)|)
  {
    hide Digits, Value, Respond, CommandLine, StopOutcome, DropDigits;
    var digits := Digits(pid);
    var some := digits[..k];
    assert ("STOP " + digits + [NEWLINE])[..5 + k] == "STOP " + some;
    ValueOfDigits(pid);
    ValueOfCut(digits, k);
    DropDigitsLess(pid, |digits| - k);
    assert AllDigits(some);
    StopFragment(some, os);
    forall r ensures Kill(r) in StopOutcome(Some(some), os).signals <==>
                     r == Value(some) && Value(some) >= 2 && os.probe == Done
    {
      KillExact(some, os, r);
    }
  }

  /** Of "STOP 1234" cut after two digits the server makes a kill of process 12. */
  lemma FragmentKillsAnother(os: Os)
    requires os.probe == Done
    ensures Digits(1234) == "1234" && Kill(12) in Respond("STOP 12", os).signals
  {
    hide Respond;
    assert Digits(123) == "123" && Digits(1234) == Digits(123) + "4";
    FragmentedStop(1234, 2, os);
    assert ("STOP " + "1234" + [NEWLINE])[..7] == "STOP 12";
    assert DropDigits(1234, 2) == 12;
  }

  lemma StopFragment(some: string, os: Os)
    requires some != "" && AllDigits(some)
    ensures Respond("STOP " + some, os) == StopOutcome(Some(some), os)
  {
    hide Respond, StopOutcome;
    var chunk := "STOP " + some;
    assert Unbroken(chunk) by {
      forall i | 0 <= i < |chunk| ensures InLine(chunk[i]) {
        assert i >= 5 ==> IsDigit(some[i - 5]);
      }
    }
    CommandLineOf(chunk, "");
    assert chunk + "" == chunk && "STOP" + " " == "STOP ";
    SplitFramed("STOP", some);
    StopVerb();
    RespondStop(chunk, some, os);
  }

  lemma {:induction false} DropDigitsLess(n: nat, j: nat)
    requires n > 0
    ensures DropDigits(n, j) <= n && (DropDigits(n, j) == n <==> j == 0)
    decreases j
  {
    if j > 0 {
      if n / 10 > 0 {
        DropDigitsLess(n / 10, j - 1);
      } else {
        DropZero(j - 1);
      }
    }
  }

  lemma {:induction false} DropZero(j: nat)
    ensures DropDigits(0, j) == 0
  {
    if j > 0 {
      DropZero(j - 1);
    }
  }

  lemma PowTen()
    ensures Pow10(10) == 10_000_000_000
  {
    assert Pow10(2) == 100;
    assert Pow10(4) == 10_000;
    assert Pow10(6) == 1_000_000;
    assert Pow10(8) == 100_000_000;
  }

  // ----- START -----

  lemma StartSplit(arg: string)
    requires arg != "" && forall i :: 0 <= i < |arg| ==> IsPrint(arg[i])
    ensures SplitRequest("START " + arg + [NEWLINE]) == Request(Some("START"), Some(arg))
  {
    hide SplitRequest;
    assert Unbroken(arg);
    FramingRoundTrip("START", arg);
    assert "START" + " " == "START ";
  }

  lemma StartMessage(arg: string)
    requires IsPending("START " + arg)
    ensures CM.Message("START " + arg) == Some("START " + arg + [NEWLINE])
  {
    var cmd := "START " + arg;
    assert cmd[0] == 'S' && cmd != "HELP" && cmd != "EXIT" && !("RUN " <= cmd);
    CR.FramingLimits(cmd);
  }

  lemma UpperPending(prefix: string, arg: string)
    requires IsPending(prefix + arg)
    ensures IsPending(Upper(prefix) + Upper(arg))
    ensures forall i :: 0 <= i < |arg| ==> IsPrint(Upper(arg)[i])
  {
    var s := prefix + arg;
    assert forall i :: 0 <= i < |arg| ==> arg[i] == s[|prefix| + i];
    assert forall i :: 0 <= i < |prefix| ==> prefix[i] == s[i];
  }

  /** The argument of a START typed on the line reaches the server upper-cased: it is
      the argument typed exactly when that has no lower-case letter. */
  lemma TypedStartArgument(arg: string)
    requires arg != "" && IsPending("START " + arg)
    ensures var msg := CM.Message(Upper("START " + arg));
            && msg == Some("START " + Upper(arg) + [NEWLINE])
            && SplitRequest(msg.value) == Request(Some("START"), Some(Upper(arg)))
            && (SplitRequest(msg.value).arg == Some(arg) <==> forall i :: 0 <= i < |arg| ==> !IsLower(arg[i]))
  {
    hide SplitRequest, CM.Message, IsPending;
    UpperAppend("START ", arg);
    assert Upper("START ") == "START ";
    UpperPending("START ", arg);
    StartMessage(Upper(arg));
    StartSplit(Upper(arg));
    UpperFixed(arg);
  }

  /** The START of the documentation asks for a program of another name. */
  lemma SleepUpperCased()
    ensures CM.Message(Upper("START sleep 100")) == Some("START SLEEP 100" + [NEWLINE])
    ensures SplitRequest("START SLEEP 100" + [NEWLINE]).arg == Some("SLEEP 100") != Some("sleep 100")
  {
    hide SplitRequest, CM.Message;
    TypedStartArgument("sleep 100");
    assert Upper("sleep 100") == "SLEEP 100";
    assert "START " + "SLEEP 100" == "START SLEEP 100" && "START " + "sleep 100" == "START sleep 100";
  }

  /** The launch dialog keeps letter case: the server gets the text entered, and a child that
      can be forked runs its words. */
  lemma LaunchedCommandRuns(text: string, os: Os)
    requires text != "" && IsPending(text)
    ensures SplitRequest(CM.LaunchMessage(text)) == Request(Some("START"), Some(text))
    ensures Respond(CM.LaunchMessage(text), os) == StartOutcome(Some(text), os)
    ensures os.fork.Forked? && !IsBlocked(text) && Words(text) != [] ==>
              Respond(CM.LaunchMessage(text), os).exec == Some(First(Words(text), ARGS_MAX))
  {
    hide SplitRequest, IsBlocked, Words, Respond, CM.LaunchMessage, VerbOf;
    CR.FramingLimits(text);
    StartSplit(text);
    StopVerb();
    RespondStart(CM.LaunchMessage(text), text, os);
  }

  lemma RespondStart(chunk: string, arg: string, os: Os)
    requires SplitRequest(chunk) == Request(Some("START"), Some(arg)) && VerbOf("START") == Start
    ensures Respond(chunk, os) == StartOutcome(Some(arg), os)
  {
    hide SplitRequest, StartOutcome, VerbOf;
  }

  /** A RUN command is sent rewritten, and takes the server's branch with the argument
      that it would have reached unrewritten. */
  lemma AliasEndToEnd(cmd: string)
    requires IsCommand(cmd) && "RUN " <= cmd
    ensures CM.Message(cmd).Some?
    ensures Dispatched(CM.Message(cmd).value) == Dispatched(cmd + [NEWLINE])
    ensures Dispatched(CM.Message(cmd).value).0 == Start
  {
    hide Dispatched;
    var x := cmd[4..] + [NEWLINE];
    CR.FramingLimits(cmd);
    assert cmd == "RUN " + cmd[4..];
    assert cmd[0] == 'R';
    AppendAssoc("RUN ", cmd[4..], [NEWLINE]);
    AppendAssoc("START ", cmd[4..], [NEWLINE]);
    AliasPreserved(x);
  }

  // ----- One message, one reply -----

  /** Every message of a run is one line: the server reads all of it but the newline. */
  lemma MessageIsOneLine(cmd: string)
    requires IsCommand(cmd) && CM.IdealMessage(cmd).Some?
    ensures var msg := CM.IdealMessage(cmd).value;
            CommandLine(msg) + [NEWLINE] == msg
  {
    var msg := CM.IdealMessage(cmd).value;
    var line := msg[..|msg| - 1];
    assert msg == line + [NEWLINE];
    assert forall i :: 0 <= i < |cmd| ==> IsPrint(cmd[i]);
    assert Unbroken(line) by {
      if "RUN " <= cmd {
        assert line == "START " + cmd[4..];
      } else {
        assert line == cmd;
      }
    }
    CommandLineOf(line, [NEWLINE]);
  }

  /** When the transport delivers more after a message in the same chunk, such as the next
      message, the server answers the first alone. */
  lemma CoalescedMessagesLost(cmd: string, more: string, os: Os)
    requires IsCommand(cmd) && CM.IdealMessage(cmd).Some?
    ensures var msg := CM.IdealMessage(cmd).value;
            Respond(msg + more, os) == Respond(msg, os)
  {
    hide Respond, CommandLine, Unbroken, CM.IdealMessage;
    MessageIsOneLine(cmd);
    var line := CommandLine(CM.IdealMessage(cmd).value);
    CommandLineUnbroken(CM.IdealMessage(cmd).value);
    OneReplyPerChunk(line, NEWLINE, more, os);
    OneReplyPerChunk(line, NEWLINE, "", os);
    assert line + [NEWLINE] + "" == line + [NEWLINE];
  }

  // ----- All the messages of a run -----

  /** The message that an act of the client sends, without its newline. */
  function LineOf(a: CM.Act): seq<string> {
    match a
    case Handled(cmd, _) => if CM.IdealMessage(cmd).None? then [] else [BodyOf(cmd)]
    case Launched(text, _) => ["START " + text]
    case Deferred(_) => ["LIST"]
    case Periodic(_) => ["LIST"]
  }

  function BodyOf(cmd: string): string {
    if "RUN " <= cmd then "START " + cmd[4..] else cmd
  }

  function LinesSent(acts: seq<CM.Act>): seq<string> {
    if acts == [] then [] else LineOf(acts[0]) + LinesSent(acts[1..])
  }

  /** The bytes that an act of the client sends. */
  function BytesOf(a: CM.Act): string {
    match a
    case Handled(_, msg) => if msg.Some? then msg.value else ""
    case Launched(_, launch) => launch
    case Deferred(_) => CM.LIST_MESSAGE
    case Periodic(_) => CM.LIST_MESSAGE
  }

  function BytesSent(acts: seq<CM.Act>): string {
    if acts == [] then "" else BytesOf(acts[0]) + BytesSent(acts[1..])
  }

  lemma OneLineFramed(line: string)
    requires line != "" && forall i :: 0 <= i < |line| ==> IsPrint(line[i])
    ensures Framed([line]) == line + [NEWLINE] && AreMessages([line])
  {
    assert line + [NEWLINE] + "" == line + [NEWLINE];
  }

  lemma ActSendsLine(a: CM.Act)
    requires CR.GoodAct(a)
    ensures BytesOf(a) == Framed(LineOf(a)) && AreMessages(LineOf(a))
  {
    hide Framed, AreMessages;
    NoMessages();
    match a
    case Handled(cmd, _) =>
      assert forall i :: 0 <= i < |cmd| ==> IsPrint(cmd[i]);
      OneLineFramed(BodyOf(cmd));
    case Launched(text, _) =>
      OneLineFramed("START " + text);
    case _ =>
      OneLineFramed("LIST");
      assert "LIST" + [NEWLINE] == CM.LIST_MESSAGE;
  }

  lemma NoMessages()
    ensures Framed([]) == "" && AreMessages([])
  {
  }

  lemma {:induction false} ActsSendLines(acts: seq<CM.Act>)
    requires CR.GoodActs(acts)
    ensures BytesSent(acts) == Framed(LinesSent(acts)) && AreMessages(LinesSent(acts))
  {
    hide BytesOf, LineOf, CR.GoodAct, Framed, Unbroken;
    if acts == [] {
      NoMessages();
    } else {
      ActSendsLine(acts[0]);
      ActsSendLines(acts[1..]);
      FramedAppend(LineOf(acts[0]), LinesSent(acts[1..]));
    }
  }

  /** Over a whole connection, from the dialog's LIST on and however the bytes that the client
      sends are cut into chunks: the command lines of the chunks are the client's messages if
      and only if the chunks are the messages.  Then each message gets its own answer, up
      to the one that ends the session, behind which the server takes no chunk. */
  lemma RunDelivered(lines: nat, got: CM.Recv, now: int, es: seq<CM.Event>, xs: seq<Exchange>)
    requires Concat(Chunks(xs)) == CM.LIST_MESSAGE + BytesSent(CM.Run(CM.Start(lines, got, now), es).acts)
    ensures var ls := ["LIST"] + LinesSent(CM.Run(CM.Start(lines, got, now), es).acts);
            && (ReadsEach(Chunks(xs), ls) <==> OneEach(Chunks(xs), ls))
            && (OneEach(Chunks(xs), ls) ==>
                  && (forall i :: 0 <= i < |Session(xs)| ==> Session(xs)[i] == Respond(ls[i] + [NEWLINE], xs[i].os))
                  && (|Session(xs)| == |ls| || (Session(xs) != [] && Session(xs)[|Session(xs)| - 1].reply == Goodbye)))
  {
    hide CM.Run, CM.Start, CR.GoodActs, BytesSent, LinesSent, ReadsEach, Respond, Concat, Framed, Unbroken;
    var acts := CM.Run(CM.Start(lines, got, now), es).acts;
    var ls := ["LIST"] + LinesSent(acts);
    CR.MessagesWhole(lines, got, now, es);
    ActsSendLines(acts);
    OneLineFramed("LIST");
    assert "LIST" + [NEWLINE] == CM.LIST_MESSAGE;
    FramedAppend(["LIST"], LinesSent(acts));
    DeliveredExact(Chunks(xs), ls);
    if OneEach(Chunks(xs), ls) {
      EachAnswered(xs, ls);
    }
  }
}
