/** What one pass of the client's loop changes, told field by field from the key, the line and
    the clock, and what follows for its runs: when it ends, and that LISTs keep being sent. */
module ClientPasses {
  import opened CText
  import opened ClientModel
  import opened ClientRuns
  import opened InputLines
  import opened Options
  import opened Panels
  import opened ProcessText

  /** The command that a pass completes. */
  function Completed(c: Client, e: Event): Option<string> {
    var text := c.line.before + c.line.after;
    if (e.ch == 10 || e.ch == 13 || e.ch == 343) && text != "" then Some(Upper(text)) else None
  }

  /** The pass sends a command and waits for the answer to put in place of the list. */
  predicate Asks(c: Client, e: Event) {
    Completed(c, e).Some? && IsPlain(Completed(c, e).value)
  }

  predicate IsIdle(c: Client, e: Event) {
    e.ch == -1 && c.connected
  }

  /** The pass ends the loop: Ctrl-C, EXIT, or a connection found closed or failed. */
  predicate Ends(c: Client, e: Event) {
    || e.ch == 3
    || Completed(c, e) == Some("EXIT")
    || (Asks(c, e) && e.got.Closed?)
    || (IsIdle(c, e) && (e.got.Closed? || e.got.Failed?))
  }

  /** The text launched from the dialog, if the pass opens it. */
  function LaunchedText(e: Event): Option<string> {
    if e.ch == 266 then DialogText("", e.keys) else None
  }

  /** The command is one that is followed by a refresh: RUN, or a START or STOP that is not cut off. */
  predicate SchedulesFor(cmd: string, e: Event) {
    "RUN " <= cmd || (("START " <= cmd || "STOP " <= cmd) && !e.got.Closed?)
  }

  /** The pass asks for a refresh: it launches a process, or sends a RUN, START or STOP. */
  predicate Schedules(c: Client, e: Event) {
    || LaunchedText(e).Some?
    || (Completed(c, e).Some? &&
        SchedulesFor(Completed(c, e).value, e))
  }

  /** A refresh is due. */
  predicate Refreshes(c: Client, e: Event) {
    IsIdle(c, e) && c.deferred > 0 && e.t1 >= c.deferred
  }

  /** The periodic LIST is due, unless the refresh has just been sent. */
  predicate Repeats(c: Client, e: Event) {
    IsIdle(c, e) && e.t3 - (if Refreshes(c, e) then e.t2 else c.lastList) >= 10
  }

  /** The pass scrolls the list. */
  predicate Scrolls(c: Client, e: Event) {
    c.listFocused && (e.ch == 259 || e.ch == 258)
  }

  function ActsOf(c: Client, e: Event): seq<Act> {
    (if Completed(c, e).Some? then [Handled(Completed(c, e).value, Message(Completed(c, e).value))] else [])
    + (if LaunchedText(e).Some? then [Launched(LaunchedText(e).value, LaunchMessage(LaunchedText(e).value))] else [])
    + (if Refreshes(c, e) then [Deferred(e.t1)] else [])
    + (if Repeats(c, e) then [Periodic(e.t3)] else [])
  }

  /** Everything but the line and the list, after a pass. */
  predicate ChangedBy(c: Client, e: Event, d: Client) {
    && (d.running <==> c.running && !Ends(c, e))
    && d.deferred == (if Schedules(c, e) then e.t1 + 5 else if Refreshes(c, e) then 0 else c.deferred)
    && d.lastList == (if Repeats(c, e) then e.t3
                      else if Refreshes(c, e) || Completed(c, e).Some? then e.t2 else c.lastList)
    && d.acts == c.acts + ActsOf(c, e)
    && (d.listFocused <==> (c.listFocused <==> e.ch != 9))
    && d.procHeight == (if e.ch == 410 then ProcHeight(e.lines) else c.procHeight)
    && d.scroll == (if Asks(c, e) && e.got.Data? then 0
                    else if Scrolls(c, e)
                    then ScrollClamp(c.scroll, if e.ch == 259 then -1 else 1, |c.list|, c.procHeight - 3)
                    else c.scroll)
    && d.connected == c.connected
  }

  lemma IdleExact(c: Client, e: Event)
    requires e.ch == -1
    ensures ChangedBy(c, e, Idle(c, e))
  {
    hide ParseText, CountLines, CStr, ProcHeight, ScrollClamp, Message, LaunchMessage, DialogText;
  }

  lemma CompletedIs(c: Client, e: Event)
    ensures var (l, ready) := PressKey(c.line, e.ch);
            Completed(c, e) == if ready then Some(l.Text()) else None
  {
    UpperAppend(c.line.before, c.line.after);
  }

  lemma CommandExact(c: Client, cmd: string, e: Event)
    ensures var d := HandleCommand(c, cmd, e);
            && (d.running <==> c.running && cmd != "EXIT" && !(IsPlain(cmd) && e.got.Closed?))
            && d.deferred == (if SchedulesFor(cmd, e) then e.t1 + 5 else c.deferred)
            && d.lastList == c.lastList && d.acts == c.acts + [Handled(cmd, Message(cmd))]
            && d.listFocused == c.listFocused && d.procHeight == c.procHeight && d.connected == c.connected
            && d.scroll == (if IsPlain(cmd) && e.got.Data? then 0 else c.scroll)
  {
    hide ParseText, CountLines, CStr, Message;
    assert "RUN " <= cmd ==> cmd[0] == 'R';
    assert "START " <= cmd || "STOP " <= cmd ==> cmd[0] == 'S';
    assert "HELP"[0] == 'H' && "EXIT"[0] == 'E';
  }

  lemma PressExact(c: Client, e: Event)
    requires e.ch !in {-1, 3, 9, 266, 410} && !Scrolls(c, e)
    ensures ChangedBy(c, e, PressLine(c, e))
  {
    hide ParseText, CountLines, CStr, ProcHeight, ScrollClamp, Message, LaunchMessage, DialogText, PressKey, Completed;
    hide HandleCommand, IsPlain, SchedulesFor;
    CompletedIs(c, e);
    var l := PressKey(c.line, e.ch).0;
    CommandExact(c.(line := l), l.Text(), e);
    assert ActsOf(c, e) == if Completed(c, e).Some? then [Handled(l.Text(), Message(l.Text()))] else [];
  }

  /** What a pass changes, field by field. */
  lemma StepExact(c: Client, e: Event)
    ensures ChangedBy(c, e, Step(c, e))
  {
    hide Idle, PressLine, ProcHeight, ScrollClamp, Message, LaunchMessage, DialogText;
    if e.ch == -1 {
      IdleExact(c, e);
    } else if Step(c, e) == PressLine(c, e) && e.ch !in {3, 9, 266, 410} && !Scrolls(c, e) {
      PressExact(c, e);
    }
  }

  /** The state when the loop starts: the input has the focus, nothing waits, and the periodic
      timer starts now. */
  lemma StartExact(lines: nat, got: Recv, now: int)
    ensures var c := ClientModel.Start(lines, got, now);
            && c.line == Line("", "") && c.running && !c.listFocused && c.connected && c.scroll == 0 && c.acts == []
            && c.lastList == now && c.deferred == 0 && c.procHeight == ProcHeight(lines)
            && c.raw == (if got.Data? then Some(got.bytes) else None)
  {
    hide ParseText, CountLines, CStr, ProcHeight;
  }

  /** What a pass reads from the socket: nothing, or what has arrived when it looks.  A pass
      looks when no key is pressed, after a command other than HELP and EXIT and after a
      launch; what it reads after a RUN or a launch does not replace the list. */
  lemma ReadsExact(c: Client, e: Event)
    ensures var cmd := Completed(c, e);
            var looks := IsIdle(c, e) || LaunchedText(e).Some?
                         || (cmd.Some? && cmd.value != "HELP" && cmd.value != "EXIT");
            StepReads(c, e) ==
            if looks && e.got.Data? then [Read(e.got.bytes, IsIdle(c, e) || Asks(c, e))] else []
  {
    hide DialogText, PressKey, Completed;
    CompletedIs(c, e);
    assert e.ch == -1 || e.ch == 266 ==> Completed(c, e).None? by {
      OnlyEnterCompletes(c.line, e.ch);
    }
  }

  // ----- When a run ends -----

  /** The loop goes on exactly as long as no pass ends it. */
  lemma {:induction false} RunGoesOn(c: Client, es: seq<Event>)
    ensures Run(c, es).running <==> c.running && forall k :: 0 <= k < |es| ==> !Ends(Run(c, es[..k]), es[k])
    decreases |es|
  {
    hide Step, Ends;
    if es == [] {
    } else if c.running {
      var d := Step(c, es[0]);
      StepExact(c, es[0]);
      RunGoesOn(d, es[1..]);
      assert Run(c, es[..0]) == c;
      forall k | 0 < k < |es| ensures Run(c, es[..k]) == Run(d, es[1..][..k - 1]) {
        assert es[..k][1..] == es[1..][..k - 1] && es[..k][0] == es[0];
      }
      assert forall k :: 0 < k < |es| ==> es[k] == es[1..][k - 1];
    }
  }

  // ----- LISTs keep being sent -----

  /** Acts that restart no timer: launches alone. */
  predicate OnlyLaunches(acts: seq<Act>) {
    forall i :: 0 <= i < |acts| ==> acts[i].Launched?
  }

  lemma RestartsShow(c: Client, e: Event)
    requires Completed(c, e).Some? || Refreshes(c, e) || Repeats(c, e)
    ensures !OnlyLaunches(ActsOf(c, e))
  {
    hide Completed, Message, LaunchMessage, LaunchedText, Refreshes, Repeats;
    var acts := ActsOf(c, e);
    if Completed(c, e).Some? {
      assert acts[0].Handled?;
    } else {
      assert !acts[|acts| - 1].Launched?;
    }
  }

  /** The timer is restarted only together with a message. */
  lemma {:induction false} TimerNeedsMessage(c: Client, es: seq<Event>)
    requires c.acts <= Run(c, es).acts && OnlyLaunches(Run(c, es).acts[|c.acts|..])
    ensures Run(c, es).lastList == c.lastList
    decreases |es|
  {
    if es != [] && c.running {
      hide Step, Message, LaunchMessage, LaunchedText;
      var d := Step(c, es[0]);
      StepExact(c, es[0]);
      ActsGrow(d, es[1..]);
      var end := Run(d, es[1..]);
      assert Run(c, es) == end;
      var more, some := end.acts[|c.acts|..], ActsOf(c, es[0]);
      assert end.acts[|d.acts|..] == more[|some|..];
      assert some <= more;
      assert OnlyLaunches(some) && OnlyLaunches(more[|some|..]);
      if Completed(c, es[0]).Some? || Refreshes(c, es[0]) || Repeats(c, es[0]) {
        RestartsShow(c, es[0]);
        assert false;
      }
      TimerNeedsMessage(d, es[1..]);
    }
  }

  /** In every run, a pass without a key sends a LIST if for 10 seconds no command has been
      completed and no LIST sent. */
  lemma ListsKeepComing(lines: nat, got: Recv, now: int, es: seq<Event>, quiet: seq<Event>, e: Event)
    requires ClockFrom(now, es) && e.ch == -1
    requires var s := ClientModel.Start(lines, got, now);
             var c, d := Run(s, es), Run(s, es + quiet);
             && d.running && c.acts <= d.acts && OnlyLaunches(d.acts[|c.acts|..])
             && e.t3 - LastRead(s, es, now) >= 10
    ensures var s := ClientModel.Start(lines, got, now);
            var d, f := Run(s, es + quiet), Run(s, es + quiet + [e]);
            f.acts == d.acts + [Deferred(e.t1)] || f.acts == d.acts + [Periodic(e.t3)]
            || f.acts == d.acts + [Deferred(e.t1), Periodic(e.t3)]
  {
    hide ClientModel.Start, Run, Step, Completed;
    var s := ClientModel.Start(lines, got, now);
    var c, d := Run(s, es), Run(s, es + quiet);
    RunTimely(lines, got, now, es);
    RunAppend(s, es, quiet);
    TimerNeedsMessage(c, quiet);
    assert d.lastList <= LastRead(s, es, now);
    StartConnected(lines, got, now);
    RunConnected(s, es + quiet);
    RunAppend(s, es + quiet, [e]);
    RunOne(d, e);
    StepExact(d, e);
    assert Completed(d, e).None? by {
      NoKeyCompletesNothing(d, e);
    }
    assert Refreshes(d, e) || Repeats(d, e);
  }

  predicate PeriodicFrom(ts: seq<Auto>, from: int) {
    forall i :: 0 <= i < |ts| && ts[i].periodic ==> ts[i].at >= from
  }

  lemma {:induction false} PeriodicWaits(c: Client, es: seq<Event>, now: int)
    requires ClockFrom(now, es) && now <= c.lastList && PeriodicFrom(Autos(c.acts), now + 10)
    ensures PeriodicFrom(Autos(Run(c, es).acts), now + 10)
    decreases |es|
  {
    if es != [] && c.running {
      hide Step, Autos, Message, LaunchMessage, LaunchedText, Completed, PeriodicFrom;
      StepExact(c, es[0]);
      var d := Step(c, es[0]);
      StepPeriodic(c, es[0], d, now);
      ClockLater(now, es[0].t3, es[1..]);
      PeriodicWaits(d, es[1..], now);
    }
  }

  lemma StepPeriodic(c: Client, e: Event, d: Client, now: int)
    requires ChangedBy(c, e, d) && ReadAfter(now, e) && now <= c.lastList && PeriodicFrom(Autos(c.acts), now + 10)
    ensures now <= d.lastList && PeriodicFrom(Autos(d.acts), now + 10)
  {
    hide Autos, Message, LaunchMessage, LaunchedText, Completed;
    var acts := c.acts;
    if Completed(c, e).Some? {
      AutosSnoc(acts, Handled(Completed(c, e).value, Message(Completed(c, e).value)));
      acts := acts + [Handled(Completed(c, e).value, Message(Completed(c, e).value))];
    }
    if LaunchedText(e).Some? {
      AutosSnoc(acts, Launched(LaunchedText(e).value, LaunchMessage(LaunchedText(e).value)));
      acts := acts + [Launched(LaunchedText(e).value, LaunchMessage(LaunchedText(e).value))];
    }
    if Refreshes(c, e) {
      AutosSnoc(acts, Deferred(e.t1));
      acts := acts + [Deferred(e.t1)];
    }
    if Repeats(c, e) {
      AutosSnoc(acts, Periodic(e.t3));
      acts := acts + [Periodic(e.t3)];
    }
    assert d.acts == acts;
  }

  lemma ClockLater(now: int, later: int, es: seq<Event>)
    requires now <= later && ClockFrom(later, es)
    ensures ClockFrom(now, es)
  {
  }

  /** In every run the first periodic LIST is sent no sooner than 10 seconds after the start. */
  lemma NoneBeforeInterval(lines: nat, got: Recv, now: int, es: seq<Event>)
    requires ClockFrom(now, es)
    ensures PeriodicFrom(Autos(Run(ClientModel.Start(lines, got, now), es).acts), now + 10)
  {
    StartExact(lines, got, now);
    PeriodicWaits(ClientModel.Start(lines, got, now), es, now);
  }

  lemma NoKeyCompletesNothing(c: Client, e: Event)
    requires e.ch == -1
    ensures Completed(c, e).None? && LaunchedText(e).None?
  {
  }

  /** In every run, after a RUN, START or STOP or a launch a refresh is due 5 seconds later, and
      by the first pass without a key from then on it has been sent, unless a newer one is waiting. */
  lemma RefreshFollows(lines: nat, got: Recv, now: int, es: seq<Event>, k: Event, more: seq<Event>, e: Event)
    requires ClockFrom(now, es + [k] + (more + [e])) && 0 <= now && e.ch == -1
    requires var s := ClientModel.Start(lines, got, now);
             Run(s, es).running && Schedules(Run(s, es), k) && Run(s, es + [k] + more).running
    ensures var s := ClientModel.Start(lines, got, now);
            var c, f := Run(s, es + [k]), Run(s, es + [k] + (more + [e]));
            && c.deferred == k.t1 + 5
            && (ServedAfter(f.acts, |c.acts|, k.t1 + 5) || f.deferred > e.t1)
  {
    hide ClientModel.Start, Run, Step, Schedules, LastRead;
    var s := ClientModel.Start(lines, got, now);
    StepExact(Run(s, es), k);
    RunAppend(s, es, [k]);
    RunOne(Run(s, es), k);
    ClockSplit(now, es + [k], more + [e]);
    ClockSplit(now, es, [k]);
    ClockAhead(now, es);
    RefreshNotLost(lines, got, now, es + [k], more + [e]);
    AppendAssoc(es + [k], more, [e]);
    PassOnTime(lines, got, now, es + [k] + more, e);
  }

  lemma {:induction false} ClockAhead(now: int, es: seq<Event>)
    requires ClockFrom(now, es)
    ensures es != [] ==> now <= es[|es| - 1].t3
    decreases |es|
  {
    if |es| > 1 {
      ClockAhead(es[0].t3, es[1..]);
    }
  }

  // ----- The launch dialog -----

  /** The text that keys other than Enter and ESC leave of a text. */
  function TypedText(text: string, keys: seq<int>): string
    decreases |keys|
  {
    if keys == [] then text else TypedText(TypeKey(Typed(text, []), keys[0]).pending, keys[1..])
  }

  predicate OnlyText(keys: seq<int>) {
    forall i :: 0 <= i < |keys| ==> keys[i] != 27 && keys[i] != 10 && keys[i] != 13 && keys[i] != 343
  }

  /** The dialog's own editing is plain typing: ESC gives it up, Enter takes the text typed if
      there is any and otherwise asks for more. */
  lemma {:induction false} DialogIsTyping(text: string, keys: seq<int>, last: int, more: seq<int>)
    requires IsPending(text) && OnlyText(keys) && (last == 27 || last == 10 || last == 13 || last == 343)
    ensures IsPending(TypedText(text, keys))
    ensures DialogText(text, keys + [last] + more) ==
            if last == 27 then None
            else if TypedText(text, keys) != "" then Some(TypedText(text, keys))
            else DialogText("", more)
    decreases |keys|
  {
    var all := keys + [last] + more;
    if keys == [] {
      assert all[0] == last && all[1..] == more;
    } else {
      var next := TypeKey(Typed(text, []), keys[0]).pending;
      assert all[0] == keys[0] && all[1..] == keys[1..] + [last] + more;
      TypeKeyGood(Typed(text, []), keys[0]);
      DialogIsTyping(next, keys[1..], last, more);
    }
  }
}
