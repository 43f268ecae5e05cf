/** The client's main loop as a state machine: one step for each pass of `tui_run`. */
module ClientModel {
  import opened CText
  import opened InputLines
  import opened Options
  import opened Panels
  import opened ProcessText

  const NET_BUFFER_SIZE: nat := 65536
  const LIST_INTERVAL: int := 10
  const CMD_REFRESH_DELAY: int := 5

  const NO_KEY: int := -1
  const CTRL_C: int := 3
  const TAB: int := 9
  const ESC: int := 27

  const LIST_MESSAGE: string := "LIST\n"
  const EXIT_MESSAGE: string := "EXIT\n"

  /** One answer of the socket. */
  datatype Recv = NoData | Closed | Failed | Data(bytes: string)

  /** What the environment supplies to one pass of the loop: the key (or none), the clock
      readings in the order they are made, what the socket answers, the keys typed into a
      dialog, and the height of the terminal. */
  datatype Event = Event(ch: int, t1: int, t2: int, t3: int, got: Recv, keys: seq<int>, lines: nat)

  /** What the client did that others can see: a command handled and the message sent for
      it, a process launched from the dialog, an automatic LIST and the time of it. */
  datatype Act =
    | Handled(cmd: string, msg: Option<string>)
    | Launched(text: string, launch: string)
    | Deferred(at: int)
    | Periodic(at: int)

  datatype Client = Client(
    line: Line,
    raw: Option<string>,
    lineCount: nat,
    list: seq<Entry>,
    scroll: nat,
    running: bool,
    listFocused: bool,
    procHeight: nat,
    connected: bool,
    lastList: int,
    deferred: int,
    acts: seq<Act>)

  /** The three receive sites' update: raw text, its line count and the parsed list. */
  function Received(c: Client, bytes: string): Client {
    c.(raw := Some(bytes), lineCount := CountLines(bytes), list := ParseText(CStr(bytes)))
  }

  // ----- Messages -----

  function RunMessage(cmd: string): string
    requires |cmd| >= 4
  {
    var aliased := Snprintf(INPUT_BUF_SIZE + 2, "START " + cmd[4..]);
    Snprintf(INPUT_BUF_SIZE + 4, aliased + [NEWLINE])
  }

  function PlainMessage(cmd: string): string {
    Snprintf(INPUT_BUF_SIZE + 2, cmd + [NEWLINE])
  }

  function LaunchMessage(text: string): string {
    Snprintf(INPUT_BUF_SIZE + 8, "START " + text + [NEWLINE])
  }

  /** What `handle_command` sends for a command, if anything. */
  function Message(cmd: string): Option<string> {
    if cmd == "HELP" then None
    else if "RUN " <= cmd then Some(RunMessage(cmd))
    else if cmd == "EXIT" then Some(EXIT_MESSAGE)
    else Some(PlainMessage(cmd))
  }

  /** The same without buffers. */
  function IdealMessage(cmd: string): Option<string> {
    if cmd == "HELP" then None
    else if "RUN " <= cmd then Some("START " + cmd[4..] + [NEWLINE])
    else Some(cmd + [NEWLINE])
  }

  // ----- Steps -----

  function HandleCommand(c: Client, cmd: string, e: Event): Client {
    var d := c.(acts := c.acts + [Handled(cmd, Message(cmd))]);
    if cmd == "HELP" then d
    else if "RUN " <= cmd then d.(deferred := e.t1 + CMD_REFRESH_DELAY)
    else if cmd == "EXIT" then d.(running := false)
    else if e.got.Closed? then d.(running := false)
    else
      var u := if e.got.Data? then Received(d, e.got.bytes).(scroll := 0) else d;
      if "START " <= cmd || "STOP " <= cmd then u.(deferred := e.t1 + CMD_REFRESH_DELAY) else u
  }

  /** The text entered in the launch dialog; none when it is left with ESC. */
  function DialogText(text: string, keys: seq<int>): (r: Option<string>)
    requires IsPending(text)
    ensures r.Some? ==> r.value != "" && IsPending(r.value)
    decreases |keys|
  {
    if keys == [] || keys[0] == ESC then None
    else if IsEnter(keys[0]) then if text == "" then DialogText(text, keys[1..]) else Some(text)
    else if IsErase(keys[0]) then DialogText(if text == "" then text else text[..|text| - 1], keys[1..])
    else if IsPrintKey(keys[0]) && |text| < TEXT_MAX then DialogText(text + [keys[0] as char], keys[1..])
    else DialogText(text, keys[1..])
  }

  function LaunchDialog(c: Client, e: Event): Client {
    match DialogText("", e.keys)
    case None => c
    case Some(text) =>
      c.(deferred := e.t1 + CMD_REFRESH_DELAY, acts := c.acts + [Launched(text, LaunchMessage(text))])
  }

  function PressLine(c: Client, e: Event): Client {
    var (l, ready) := PressKey(c.line, e.ch);
    if !ready then c.(line := l)
    else HandleCommand(c.(line := l), l.Text(), e).(line := EMPTY, lastList := e.t2)
  }

  function AsyncReceive(c: Client, e: Event): Client {
    if !c.connected then c
    else
      match e.got
      case Data(bytes) => Received(c, bytes)
      case NoData => c
      case _ => c.(running := false)
  }

  function DeferredRefresh(c: Client, e: Event): Client {
    if c.deferred > 0 && c.connected && e.t1 >= c.deferred
    then c.(deferred := 0, lastList := e.t2, acts := c.acts + [Deferred(e.t1)])
    else c
  }

  function PeriodicRefresh(c: Client, e: Event): Client {
    if c.connected && e.t3 - c.lastList >= LIST_INTERVAL
    then c.(lastList := e.t3, acts := c.acts + [Periodic(e.t3)])
    else c
  }

  function Idle(c: Client, e: Event): Client {
    PeriodicRefresh(DeferredRefresh(AsyncReceive(c, e), e), e)
  }

  function ScrollStep(c: Client, delta: int): Client {
    c.(scroll := ScrollClamp(c.scroll, delta, |c.list|, c.procHeight - 3))
  }

  function Step(c: Client, e: Event): Client {
    if e.ch == NO_KEY then Idle(c, e)
    else if e.ch == CTRL_C then c.(running := false)
    else if e.ch == KEY_RESIZE then c.(procHeight := ProcHeight(e.lines))
    else if e.ch == TAB then c.(listFocused := !c.listFocused)
    else if c.listFocused && e.ch == KEY_UP then ScrollStep(c, -1)
    else if c.listFocused && e.ch == KEY_DOWN then ScrollStep(c, 1)
    else if e.ch == KEY_F1 then c
    else if e.ch == KEY_F2 then LaunchDialog(c, e)
    else PressLine(c, e)
  }

  /** The state when the loop starts: after the connection dialog's own LIST. */
  function Start(lines: nat, got: Recv, now: int): Client {
    var c := Client(EMPTY, None, 0, [], 0, true, false, ProcHeight(lines), true, now, 0, []);
    if got.Data? then Received(c, got.bytes) else c
  }

  /** The loop runs until `running` is cleared. */
  function Run(c: Client, es: seq<Event>): Client
    decreases |es|
  {
    if es == [] || !c.running then c else Run(Step(c, es[0]), es[1..])
  }

  lemma RunOne(c: Client, e: Event)
    requires c.running
    ensures Run(c, [e]) == Step(c, e)
  {
    hide Step;
    assert [e][1..] == [];
  }

  lemma {:induction false} RunAppend(c: Client, es: seq<Event>, more: seq<Event>)
    ensures Run(c, es + more) == Run(Run(c, es), more)
    decreases |es|
  {
    hide Step;
    if es == [] {
      assert es + more == more;
    } else {
      assert (es + more)[1..] == es[1..] + more && (es + more)[0] == es[0];
      if c.running {
        RunAppend(Step(c, es[0]), es[1..], more);
      }
    }
  }

  // ----- The cache agrees with the raw text -----

  predicate CacheOf(raw: Option<string>, lineCount: nat, list: seq<Entry>) {
    match raw
    case None => lineCount == 0 && list == []
    case Some(bytes) => lineCount == CountLines(bytes) && list == ParseText(CStr(bytes))
  }

  predicate Agrees(c: Client) {
    CacheOf(c.raw, c.lineCount, c.list)
  }

  lemma HandleCommandAgrees(c: Client, cmd: string, e: Event)
    requires Agrees(c)
    ensures Agrees(HandleCommand(c, cmd, e))
  {
    hide ParseText, CountLines, CStr, Message;
  }

  lemma IdleAgrees(c: Client, e: Event)
    requires Agrees(c)
    ensures Agrees(Idle(c, e))
  {
    hide ParseText, CountLines, CStr;
  }

  lemma StepAgrees(c: Client, e: Event)
    requires Agrees(c)
    ensures Agrees(Step(c, e))
  {
    hide CacheOf, PressKey, DialogText, LaunchMessage, HandleCommand, Idle, ScrollClamp;
    IdleAgrees(c, e);
    var l := PressKey(c.line, e.ch).0;
    HandleCommandAgrees(c.(line := l), l.Text(), e);
  }

  lemma {:induction false} RunAgrees(c: Client, es: seq<Event>)
    requires Agrees(c)
    ensures Agrees(Run(c, es))
    decreases |es|
  {
    if es != [] && c.running {
      StepAgrees(c, es[0]);
      RunAgrees(Step(c, es[0]), es[1..]);
    }
  }

  /** In every reachable state the parsed list is the parse of the stored text, the counter
      is its number of lines, and there are fewer entries than lines. */
  lemma CacheAgreement(lines: nat, got: Recv, now: int, es: seq<Event>)
    ensures var d := Run(Start(lines, got, now), es);
            && CacheOf(d.raw, d.lineCount, d.list)
            && |d.list| <= if d.lineCount > 0 then d.lineCount - 1 else 0
  {
    hide Run, ParseText, CountLines, CStr;
    var c := Start(lines, got, now);
    RunAgrees(c, es);
    var d := Run(c, es);
    if d.raw.Some? {
      EntryCountBound(d.raw.value);
    }
  }

  // ----- The list shows what was received last -----

  /** The commands that are sent as they are and whose response replaces the list. */
  predicate IsPlain(cmd: string) {
    cmd != "HELP" && cmd != "EXIT" && !("RUN " <= cmd)
  }

  /** Bytes read from the socket at once, and whether they replace the list; the answers to
      RUN and to the launch dialog only go into a message. */
  datatype Read = Read(bytes: string, shown: bool)

  /** What a pass reads from the socket. */
  function StepReads(c: Client, e: Event): seq<Read> {
    var (l, ready) := PressKey(c.line, e.ch);
    if !e.got.Data? then []
    else if e.ch == NO_KEY then if c.connected then [Read(e.got.bytes, true)] else []
    else if e.ch == KEY_F2 then if DialogText("", e.keys).Some? then [Read(e.got.bytes, false)] else []
    else if !ready || l.Text() == "HELP" || l.Text() == "EXIT" then []
    else [Read(e.got.bytes, !("RUN " <= l.Text()))]
  }

  function Reads(c: Client, es: seq<Event>): seq<Read>
    decreases |es|
  {
    if es == [] || !c.running then [] else StepReads(c, es[0]) + Reads(Step(c, es[0]), es[1..])
  }

  /** All that is read on a connection, beginning with the answer to the connection dialog's LIST. */
  function SessionReads(lines: nat, got: Recv, now: int, es: seq<Event>): seq<Read> {
    (if got.Data? then [Read(got.bytes, true)] else []) + Reads(Start(lines, got, now), es)
  }

  /** The bytes of all reads: what the server has sent and the client has taken so far. */
  function Stream(rs: seq<Read>): string {
    if rs == [] then "" else Stream(rs[..|rs| - 1]) + rs[|rs| - 1].bytes
  }

  /** The bytes shown last. */
  function Shown(rs: seq<Read>): Option<string> {
    if rs == [] then None
    else if rs[|rs| - 1].shown then Some(rs[|rs| - 1].bytes)
    else Shown(rs[..|rs| - 1])
  }

  /** Where they begin in the stream. */
  function ShownAt(rs: seq<Read>): nat {
    if rs == [] then 0
    else if rs[|rs| - 1].shown then |Stream(rs[..|rs| - 1])|
    else ShownAt(rs[..|rs| - 1])
  }

  lemma {:induction false} ShownIsSlice(rs: seq<Read>)
    requires Shown(rs).Some?
    ensures var a, part := ShownAt(rs), Shown(rs).value;
            a + |part| <= |Stream(rs)| && Stream(rs)[a..a + |part|] == part
  {
    if !rs[|rs| - 1].shown {
      ShownIsSlice(rs[..|rs| - 1]);
    }
  }

  lemma {:induction false} ShownAppend(rs: seq<Read>, more: seq<Read>)
    ensures Shown(rs + more) == if Shown(more).Some? then Shown(more) else Shown(rs)
    decreases |more|
  {
    if more == [] {
      assert rs + more == rs;
    } else {
      assert (rs + more)[..|rs + more| - 1] == rs + more[..|more| - 1];
      ShownAppend(rs, more[..|more| - 1]);
    }
  }

  lemma CommandShows(c: Client, cmd: string, e: Event)
    ensures HandleCommand(c, cmd, e).raw == if e.got.Data? && IsPlain(cmd) then Some(e.got.bytes) else c.raw
  {
    hide ParseText, CStr, CountLines, Message;
  }

  lemma OnlyEnterCompletes(l: Line, ch: int)
    ensures PressKey(l, ch).1 ==> IsEnter(ch)
  {
  }

  lemma StepShows(c: Client, e: Event)
    ensures var t := Shown(StepReads(c, e));
            Step(c, e).raw == if t.Some? then t else c.raw
  {
    hide ParseText, CStr, CountLines, PressKey, DialogText, LaunchMessage, HandleCommand, ScrollClamp, ProcHeight;
    OnlyEnterCompletes(c.line, e.ch);
    var l := PressKey(c.line, e.ch).0;
    CommandShows(c.(line := l), l.Text(), e);
  }

  lemma {:induction false} RunShows(c: Client, es: seq<Event>)
    ensures var t := Shown(Reads(c, es));
            Run(c, es).raw == if t.Some? then t else c.raw
    decreases |es|
  {
    hide Step, StepReads, Shown;
    if es == [] || !c.running {
      assert Shown([]) == None by {
        NothingShown();
      }
    } else {
      StepShows(c, es[0]);
      RunShows(Step(c, es[0]), es[1..]);
      ShownAppend(StepReads(c, es[0]), Reads(Step(c, es[0]), es[1..]));
    }
  }

  lemma NothingShown()
    ensures Shown([]) == None
  {
  }

  /** In every reachable state the list is the parse of the bytes that the last shown read
      brought, one slice of all that was read on the connection, and of those alone. */
  lemma ListIsLastShown(lines: nat, got: Recv, now: int, es: seq<Event>)
    ensures var rs, d := SessionReads(lines, got, now, es), Run(Start(lines, got, now), es);
            && d.raw == Shown(rs)
            && (d.raw.None? ==> d.list == [])
            && (d.raw.Some? ==>
                  var a, b := ShownAt(rs), ShownAt(rs) + |d.raw.value|;
                  b <= |Stream(rs)| && d.raw.value == Stream(rs)[a..b] && d.list == ParseText(CStr(Stream(rs)[a..b])))
  {
    hide Run, Reads, ParseText, CStr, CountLines, Stream, ShownAt;
    var c := Start(lines, got, now);
    var first := if got.Data? then [Read(got.bytes, true)] else [];
    RunShows(c, es);
    ShownAppend(first, Reads(c, es));
    CacheAgreement(lines, got, now, es);
    if Run(c, es).raw.Some? {
      ShownIsSlice(SessionReads(lines, got, now, es));
    }
  }

  // ----- Commands are what was typed -----

  function CommandsIn(acts: seq<Act>): seq<string> {
    if acts == [] then []
    else
      var front, last := CommandsIn(acts[..|acts| - 1]), acts[|acts| - 1];
      if last.Handled? then front + [last.cmd] else front
  }

  lemma CommandsSnoc(acts: seq<Act>, a: Act)
    ensures CommandsIn(acts + [a]) == CommandsIn(acts) + (if a.Handled? then [a.cmd] else [])
  {
    assert (acts + [a])[..|acts|] == acts;
  }

  /** The typing that a state stands for. */
  function TypedIn(c: Client): Typed {
    Typed(c.line.before, CommandsIn(c.acts))
  }

  lemma IdleTypes(c: Client, e: Event)
    ensures Idle(c, e).line == c.line && CommandsIn(Idle(c, e).acts) == CommandsIn(c.acts)
  {
    hide CommandsIn, ParseText, CountLines, CStr;
    var d := AsyncReceive(c, e);
    CommandsSnoc(d.acts, Deferred(e.t1));
    CommandsSnoc(DeferredRefresh(d, e).acts, Periodic(e.t3));
  }

  lemma HandleCommandActs(c: Client, cmd: string, e: Event)
    ensures HandleCommand(c, cmd, e).acts == c.acts + [Handled(cmd, Message(cmd))]
  {
    hide Message, ParseText, CountLines, CStr;
  }

  lemma PressTypes(c: Client, e: Event)
    requires c.line.after == ""
    ensures PressLine(c, e).line.after == "" && TypedIn(PressLine(c, e)) == TypeKey(TypedIn(c), e.ch)
  {
    hide HandleCommand, CommandsIn, PressKey, TypeKey;
    PressIsTyping(TypedIn(c), e.ch);
    assert c.line == Line(c.line.before, "");
    var (l, ready) := PressKey(c.line, e.ch);
    if ready {
      HandleCommandActs(c.(line := l), l.Text(), e);
      CommandsSnoc(c.acts, Handled(l.Text(), Message(l.Text())));
    } else {
      assert l.Text() == l.before;
    }
  }

  predicate IsSpecial(ch: int) {
    ch in {NO_KEY, CTRL_C, TAB, KEY_RESIZE, KEY_F1, KEY_F2, KEY_UP, KEY_DOWN}
  }

  lemma StepTypes(c: Client, e: Event)
    requires c.line.after == ""
    ensures Step(c, e).line.after == "" && TypedIn(Step(c, e)) == TypeKey(TypedIn(c), e.ch)
  {
    hide Idle, PressLine, CommandsIn, DialogText, LaunchMessage, ScrollClamp, ProcHeight;
    assert IsSpecial(e.ch) ==> TypeKey(TypedIn(c), e.ch) == TypedIn(c);
    IdleTypes(c, e);
    PressTypes(c, e);
    var text := DialogText("", e.keys);
    if text.Some? {
      CommandsSnoc(c.acts, Launched(text.value, LaunchMessage(text.value)));
    }
  }

  function TypeKeys(t: Typed, es: seq<Event>): Typed
    decreases |es|
  {
    if es == [] then t else TypeKeys(TypeKey(t, es[0].ch), es[1..])
  }

  lemma {:induction false} TypeKeysGood(t: Typed, es: seq<Event>)
    requires GoodTyped(t)
    ensures GoodTyped(TypeKeys(t, es))
    decreases |es|
  {
    if es != [] {
      TypeKeyGood(t, es[0].ch);
      TypeKeysGood(TypeKey(t, es[0].ch), es[1..]);
    }
  }

  /** How many events the loop takes before it stops. */
  function Consumed(c: Client, es: seq<Event>): (n: nat)
    ensures n <= |es|
    decreases |es|
  {
    if es == [] || !c.running then 0 else 1 + Consumed(Step(c, es[0]), es[1..])
  }

  lemma {:induction false} RunTypes(c: Client, es: seq<Event>)
    requires c.line.after == ""
    ensures Run(c, es).line.after == ""
    ensures TypedIn(Run(c, es)) == TypeKeys(TypedIn(c), es[..Consumed(c, es)])
    decreases |es|
  {
    if es != [] && c.running {
      StepTypes(c, es[0]);
      RunTypes(Step(c, es[0]), es[1..]);
      var n := Consumed(Step(c, es[0]), es[1..]);
      assert es[..1 + n][1..] == es[1..][..n] && es[..1 + n][0] == es[0];
    }
  }

  /** In every run the commands handled are exactly the upper-cased texts typed between one
      Enter and the next, with the erased characters taken off; each has 1 to 255 printable
      characters, none in lower case; and the line holds what was typed since. */
  lemma CommandsAreTyped(lines: nat, got: Recv, now: int, es: seq<Event>)
    ensures var c := Start(lines, got, now);
            var t := TypeKeys(Typed("", []), es[..Consumed(c, es)]);
            && CommandsIn(Run(c, es).acts) == t.commands
            && Run(c, es).line == Line(t.pending, "")
            && GoodTyped(t)
  {
    var c := Start(lines, got, now);
    RunTypes(c, es);
    TypeKeysGood(Typed("", []), es[..Consumed(c, es)]);
  }
}
