/** Properties of the client's runs: its messages, its refresh timers and its scroll window. */
module ClientRuns {
  import opened CText
  import opened ClientModel
  import opened InputLines
  import opened Options
  import opened Panels
  import opened ProcessLists
  import opened ProcessText

  // ----- Messages are never cut -----

  /** Each framing is left whole by its buffers exactly up to a length; for the RUN alias
      that length is the longest command the editor can produce. */
  lemma FramingLimits(cmd: string)
    ensures PlainMessage(cmd) == cmd + [NEWLINE] <==> |cmd| <= TEXT_MAX + 1
    ensures LaunchMessage(cmd) == "START " + cmd + [NEWLINE] <==> |cmd| <= TEXT_MAX + 1
    ensures "RUN " <= cmd ==> (RunMessage(cmd) == "START " + cmd[4..] + [NEWLINE] <==> |cmd| <= TEXT_MAX)
  {
  }

  predicate GoodAct(a: Act) {
    match a
    case Handled(cmd, msg) => IsCommand(cmd) && msg == IdealMessage(cmd)
    case Launched(text, launch) => text != "" && IsPending(text) && launch == "START " + text + [NEWLINE]
    case _ => true
  }

  predicate GoodActs(acts: seq<Act>) {
    forall i :: 0 <= i < |acts| ==> GoodAct(acts[i])
  }

  lemma CommandAct(cmd: string)
    requires IsCommand(cmd)
    ensures GoodAct(Handled(cmd, Message(cmd)))
  {
    FramingLimits(cmd);
    assert cmd == "EXIT" ==> EXIT_MESSAGE == cmd + [NEWLINE];
  }

  predicate Sound(c: Client) {
    c.line.after == "" && IsPending(c.line.before) && GoodActs(c.acts)
  }

  lemma IdleSound(c: Client, e: Event)
    requires Sound(c)
    ensures Sound(Idle(c, e))
  {
    hide ParseText, CountLines, CStr, IsPending;
    var d := AsyncReceive(c, e);
    assert d.acts == c.acts && d.line == c.line;
    var f := DeferredRefresh(d, e);
    assert GoodActs(f.acts);
  }

  lemma PressSound(c: Client, e: Event)
    requires Sound(c)
    ensures Sound(PressLine(c, e))
  {
    hide HandleCommand, Message, PressKey, GoodAct, TypeKey;
    var t := Typed(c.line.before, []);
    PressIsTyping(t, e.ch);
    TypeKeyGood(t, e.ch);
    assert c.line == Line(c.line.before, "");
    var (l, ready) := PressKey(c.line, e.ch);
    if ready {
      HandleCommandActs(c.(line := l), l.Text(), e);
      assert TypeKey(t, e.ch).commands[0] == l.Text();
      CommandAct(l.Text());
    } else {
      assert l.Text() == l.before;
    }
  }

  lemma StepSound(c: Client, e: Event)
    requires Sound(c)
    ensures Sound(Step(c, e))
  {
    hide Idle, PressLine, ScrollClamp, ProcHeight;
    IdleSound(c, e);
    PressSound(c, e);
    var text := DialogText("", e.keys);
    if text.Some? {
      FramingLimits(text.value);
    }
  }

  lemma {:induction false} RunSound(c: Client, es: seq<Event>)
    requires Sound(c)
    ensures Sound(Run(c, es))
    decreases |es|
  {
    if es != [] && c.running {
      StepSound(c, es[0]);
      RunSound(Step(c, es[0]), es[1..]);
    }
  }

  /** In every run every message sent is the whole command it stands for. */
  lemma MessagesWhole(lines: nat, got: Recv, now: int, es: seq<Event>)
    ensures GoodActs(Run(ClientModel.Start(lines, got, now), es).acts)
  {
    hide Run, ParseText, CountLines, CStr;
    RunSound(ClientModel.Start(lines, got, now), es);
  }

  // ----- The refresh timers -----

  /** Clock readings never go back, from `from` on. */
  predicate ClockFrom(from: int, es: seq<Event>)
    decreases |es|
  {
    es == [] ||
    (from <= es[0].t1 <= es[0].t2 <= es[0].t3 && ClockFrom(es[0].t3, es[1..]))
  }

  predicate ReadAfter(from: int, e: Event) {
    from <= e.t1 <= e.t2 <= e.t3
  }

  /** An automatic LIST: when it was sent, and by which timer. */
  datatype Auto = Auto(at: int, periodic: bool)

  function AutoOf(a: Act): seq<Auto> {
    match a
    case Deferred(at) => [Auto(at, false)]
    case Periodic(at) => [Auto(at, true)]
    case _ => []
  }

  /** The automatic LISTs among the acts, in order. */
  function Autos(acts: seq<Act>): seq<Auto> {
    if acts == [] then [] else Autos(acts[..|acts| - 1]) + AutoOf(acts[|acts| - 1])
  }

  lemma AutosSnoc(acts: seq<Act>, a: Act)
    ensures Autos(acts + [a]) == Autos(acts) + AutoOf(a)
  {
    assert (acts + [a])[..|acts|] == acts;
  }

  /** How long after an automatic LIST another may be sent: a periodic one waits its
      interval after any LIST, a deferred one its delay after a deferred one. */
  function Gap(sent: Auto, next: Auto): int {
    if next.periodic then 10 else if sent.periodic then 0 else 5
  }

  predicate Spaced(ts: seq<Auto>) {
    forall i, j :: 0 <= i < j < |ts| ==> ts[i].at + Gap(ts[i], ts[j]) <= ts[j].at
  }

  predicate NoneAfter(ts: seq<Auto>, bound: int) {
    forall i :: 0 <= i < |ts| ==> ts[i].at <= bound
  }

  predicate NoDeferredAfter(ts: seq<Auto>, bound: int) {
    forall i :: 0 <= i < |ts| && !ts[i].periodic ==> ts[i].at <= bound
  }

  /** The timers at clock `now`: nothing in the future, gaps kept, no automatic LIST since
      the last one noted, and a waiting refresh due at least its delay after the last
      deferred LIST. */
  predicate Timely(c: Client, now: int) {
    && c.lastList <= now
    && (c.deferred > 0 ==> c.deferred <= now + CMD_REFRESH_DELAY)
    && Spaced(Autos(c.acts)) && NoneAfter(Autos(c.acts), c.lastList)
    && (c.deferred > 0 ==> NoDeferredAfter(Autos(c.acts), c.deferred - CMD_REFRESH_DELAY))
  }

  lemma SpacedMore(ts: seq<Auto>, t: Auto)
    requires Spaced(ts) && forall i :: 0 <= i < |ts| ==> ts[i].at + Gap(ts[i], t) <= t.at
    ensures Spaced(ts + [t]) && NoneAfter(ts + [t], t.at)
  {
  }

  /** Whatever the state, a pass without a key leaves the last LIST under 10 seconds old
      and no refresh overdue. */
  lemma IdleOnTime(c: Client, e: Event)
    requires c.connected
    ensures var d := Idle(c, e);
            d.connected && e.t3 - d.lastList < 10 && (d.deferred <= 0 || d.deferred > e.t1)
  {
    hide ParseText, CountLines, CStr;
  }

  lemma IdleTimely(c: Client, e: Event, now: int)
    requires Timely(c, now) && ReadAfter(now, e)
    ensures Timely(Idle(c, e), e.t3)
  {
    hide ParseText, CountLines, CStr, Autos, Timely, DeferredRefresh, PeriodicRefresh;
    var d := AsyncReceive(c, e);
    assert Timely(d, now) by {
      SameTimers(c, d, now);
    }
    DeferredTimely(d, e, now);
    PeriodicTimely(DeferredRefresh(d, e), e);
  }

  lemma SameTimers(c: Client, d: Client, now: int)
    requires Timely(c, now) && c.acts == d.acts && c.lastList == d.lastList && c.deferred == d.deferred
    ensures Timely(d, now)
  {
    hide Autos, Spaced, NoneAfter, NoDeferredAfter;
  }

  lemma DeferredTimely(c: Client, e: Event, now: int)
    requires Timely(c, now) && ReadAfter(now, e)
    ensures Timely(DeferredRefresh(c, e), e.t2)
  {
    hide Autos;
    AutosSnoc(c.acts, Deferred(e.t1));
    if DeferredRefresh(c, e) != c {
      SpacedMore(Autos(c.acts), Auto(e.t1, false));
    }
  }

  lemma PeriodicTimely(c: Client, e: Event)
    requires Timely(c, e.t2) && e.t2 <= e.t3
    ensures Timely(PeriodicRefresh(c, e), e.t3)
  {
    hide Autos;
    AutosSnoc(c.acts, Periodic(e.t3));
    if PeriodicRefresh(c, e) != c {
      SpacedMore(Autos(c.acts), Auto(e.t3, true));
    }
  }

  /** What handling a command can do to the timers. */
  lemma CommandTimers(c: Client, cmd: string, e: Event)
    ensures var d := HandleCommand(c, cmd, e);
            && (d.deferred == c.deferred || d.deferred == e.t1 + CMD_REFRESH_DELAY)
            && d.lastList == c.lastList && d.connected == c.connected
            && d.acts == c.acts + [Handled(cmd, Message(cmd))]
  {
    hide Message, ParseText, CountLines, CStr;
  }

  lemma PressTimely(c: Client, e: Event, now: int)
    requires Timely(c, now) && ReadAfter(now, e)
    ensures Timely(PressLine(c, e), e.t3)
  {
    hide HandleCommand, PressKey, Message, Autos;
    var (l, ready) := PressKey(c.line, e.ch);
    CommandTimers(c.(line := l), l.Text(), e);
    AutosSnoc(c.acts, Handled(l.Text(), Message(l.Text())));
  }

  lemma LaunchTimely(c: Client, e: Event, now: int)
    requires Timely(c, now) && ReadAfter(now, e)
    ensures Timely(LaunchDialog(c, e), e.t3)
  {
    hide DialogText, LaunchMessage, Autos;
    var text := DialogText("", e.keys);
    if text.Some? {
      AutosSnoc(c.acts, Launched(text.value, LaunchMessage(text.value)));
    }
  }

  lemma StepTimely(c: Client, e: Event, now: int)
    requires Timely(c, now) && ReadAfter(now, e)
    ensures Timely(Step(c, e), e.t3)
  {
    hide Idle, PressLine, LaunchDialog, ScrollClamp, ProcHeight, Autos, Spaced;
    if e.ch == NO_KEY {
      IdleTimely(c, e, now);
    } else if e.ch == KEY_F2 {
      LaunchTimely(c, e, now);
    } else if Step(c, e) == PressLine(c, e) {
      PressTimely(c, e, now);
    } else {
      var s := Step(c, e);
      assert s.acts == c.acts && s.lastList == c.lastList && s.deferred == c.deferred;
    }
  }

  /** The last clock reading of a run that starts at `now`. */
  function LastRead(c: Client, es: seq<Event>, now: int): int {
    if Consumed(c, es) == 0 then now else es[Consumed(c, es) - 1].t3
  }

  lemma {:induction false} KeepsTimely(c: Client, es: seq<Event>, now: int)
    requires Timely(c, now) && ClockFrom(now, es)
    ensures Timely(Run(c, es), LastRead(c, es, now))
    decreases |es|
  {
    hide Step, Timely;
    if es != [] && c.running {
      StepTimely(c, es[0], now);
      KeepsTimely(Step(c, es[0]), es[1..], es[0].t3);
    }
  }

  /** Over every run with a clock that does not go back, the timers are in order at its last reading. */
  lemma RunTimely(lines: nat, got: Recv, now: int, es: seq<Event>)
    requires ClockFrom(now, es)
    ensures var c := ClientModel.Start(lines, got, now);
            Timely(Run(c, es), LastRead(c, es, now))
  {
    hide Timely, Run;
    StartTimely(lines, got, now);
    KeepsTimely(ClientModel.Start(lines, got, now), es, now);
  }

  lemma StartTimely(lines: nat, got: Recv, now: int)
    ensures Timely(ClientModel.Start(lines, got, now), now)
  {
    hide ParseText, CountLines, CStr;
  }

  lemma StepConnected(c: Client, e: Event)
    ensures Step(c, e).connected == c.connected
  {
    hide ParseText, CountLines, CStr, PressKey, DialogText, LaunchMessage, HandleCommand, Message;
    hide ScrollClamp, ProcHeight;
    var l := PressKey(c.line, e.ch).0;
    CommandTimers(c.(line := l), l.Text(), e);
  }

  lemma {:induction false} RunConnected(c: Client, es: seq<Event>)
    ensures Run(c, es).connected == c.connected
    decreases |es|
  {
    if es != [] && c.running {
      hide Step;
      StepConnected(c, es[0]);
      RunConnected(Step(c, es[0]), es[1..]);
    }
  }

  /** In every run, each pass without a key leaves the last LIST under 10 seconds old
      and no refresh overdue. */
  lemma PassOnTime(lines: nat, got: Recv, now: int, es: seq<Event>, e: Event)
    requires Run(ClientModel.Start(lines, got, now), es).running && e.ch == NO_KEY
    ensures var d := Run(ClientModel.Start(lines, got, now), es + [e]);
            e.t3 - d.lastList < 10 && (d.deferred <= 0 || d.deferred > e.t1)
  {
    hide Idle, ClientModel.Start;
    var s := ClientModel.Start(lines, got, now);
    assert s.connected by {
      StartConnected(lines, got, now);
    }
    RunConnected(s, es);
    RunAppend(s, es, [e]);
    RunOne(Run(s, es), e);
    IdleOnTime(Run(s, es), e);
  }

  lemma StartConnected(lines: nat, got: Recv, now: int)
    ensures ClientModel.Start(lines, got, now).connected
  {
  }

  /** How many of the times fall into the closed window from `a` to `b`. */
  function InWindow(ts: seq<Auto>, a: int, b: int): nat {
    if ts == [] then 0
    else InWindow(ts[..|ts| - 1], a, b) + (if a <= ts[|ts| - 1].at <= b then 1 else 0)
  }

  lemma {:induction false} WindowShrinks(ts: seq<Auto>, a: int, b: int, b': int)
    requires NoneAfter(ts, b') && b' <= b
    ensures InWindow(ts, a, b) == InWindow(ts, a, b')
  {
    if ts != [] {
      WindowShrinks(ts[..|ts| - 1], a, b, b');
    }
  }

  lemma SpacedFront(ts: seq<Auto>)
    requires Spaced(ts) && ts != []
    ensures Spaced(ts[..|ts| - 1])
    ensures ts[|ts| - 1].periodic ==> NoneAfter(ts[..|ts| - 1], ts[|ts| - 1].at - 10)
    ensures |ts| > 1 && !ts[|ts| - 2].periodic ==> NoneAfter(ts[..|ts| - 1], ts[|ts| - 1].at - 5)
    ensures |ts| > 1 && ts[|ts| - 2].periodic ==> NoneAfter(ts[..|ts| - 2], ts[|ts| - 1].at - 10)
  {
    if |ts| > 1 && ts[|ts| - 2].periodic {
      forall i | 0 <= i < |ts| - 2 ensures ts[i].at <= ts[|ts| - 1].at - 10 {
        assert ts[i].at + Gap(ts[i], ts[|ts| - 2]) <= ts[|ts| - 2].at;
      }
    }
    if |ts| > 1 && !ts[|ts| - 2].periodic {
      forall i | 0 <= i < |ts| - 1 ensures ts[i].at <= ts[|ts| - 1].at - 5 {
        assert ts[|ts| - 2].at + Gap(ts[|ts| - 2], ts[|ts| - 1]) <= ts[|ts| - 1].at;
      }
    }
  }

  /** Up to two LISTs can meet at the start of a window; each further one takes 5 seconds. */
  lemma {:induction false} WindowBound(ts: seq<Auto>, a: int, b: int)
    requires Spaced(ts)
    ensures InWindow(ts, a, b) >= 1 ==> 5 * (InWindow(ts, a, b) - 2) <= b - a
    decreases |ts|
  {
    hide Spaced, NoneAfter, Gap;
    if ts != [] {
      var n, last := |ts| - 1, ts[|ts| - 1];
      SpacedFront(ts);
      WindowBound(ts[..n], a, b);
      if a <= last.at <= b && n > 0 {
        if !last.periodic && ts[n - 1].periodic {
          SpacedFront(ts[..n]);
          assert ts[..n][..n - 1] == ts[..n - 1];
          WindowShrinks(ts[..n - 1], a, b, last.at - 10);
          WindowBound(ts[..n - 1], a, last.at - 10);
        } else {
          var gap := if last.periodic then 10 else 5;
          WindowShrinks(ts[..n], a, b, last.at - gap);
          WindowBound(ts[..n], a, last.at - gap);
        }
      }
    }
  }

  /** In every run periodic LISTs are at least 10 seconds after any automatic one, deferred
      ones at least 5 seconds apart, and any window of `w` seconds holds at most w/5 + 2 of both. */
  lemma AutomaticListRate(lines: nat, got: Recv, now: int, es: seq<Event>, a: int, w: nat)
    requires ClockFrom(now, es)
    ensures var ts := Autos(Run(ClientModel.Start(lines, got, now), es).acts);
            Spaced(ts) && InWindow(ts, a, a + w) <= w / 5 + 2
  {
    hide Run, InWindow, Spaced, ClientModel.Start;
    RunTimely(lines, got, now, es);
    WindowBound(Autos(Run(ClientModel.Start(lines, got, now), es).acts), a, a + w);
  }

  /** Some LIST sent after the first `from` acts serves a refresh due at `due`. */
  predicate ServedAfter(acts: seq<Act>, from: nat, due: int) {
    exists i :: from <= i < |acts| && acts[i].Deferred? && acts[i].at >= due
  }

  lemma {:induction false} RefreshServed(c: Client, es: seq<Event>, now: int)
    requires Timely(c, now) && ClockFrom(now, es) && c.deferred > 0
    ensures Run(c, es).deferred >= c.deferred || ServedAfter(Run(c, es).acts, |c.acts|, c.deferred)
    decreases |es|
  {
    if es != [] && c.running {
      hide Step, Timely;
      var e := es[0];
      var s := Step(c, e);
      StepTimely(c, e, now);
      StepDeferred(c, e, now);
      ActsGrow(s, es[1..]);
      var acts := Run(s, es[1..]).acts;
      assert Run(c, es) == Run(s, es[1..]);
      if s.deferred >= c.deferred {
        RefreshServed(s, es[1..], e.t3);
        if ServedAfter(acts, |s.acts|, s.deferred) {
          var i :| |s.acts| <= i < |acts| && acts[i].Deferred? && acts[i].at >= s.deferred;
          assert |c.acts| <= i && acts[i].at >= c.deferred;
        }
      } else {
        assert acts[|c.acts|] == s.acts[|c.acts|];
      }
    }
  }

  lemma {:induction false} ClockSplit(now: int, es: seq<Event>, more: seq<Event>)
    requires ClockFrom(now, es + more)
    ensures ClockFrom(now, es) && ClockFrom(if es == [] then now else es[|es| - 1].t3, more)
    decreases |es|
  {
    if es == [] {
      assert es + more == more;
    } else {
      assert (es + more)[1..] == es[1..] + more;
      ClockSplit(es[0].t3, es[1..], more);
    }
  }

  lemma {:induction false} AllConsumed(c: Client, es: seq<Event>)
    requires Run(c, es).running
    ensures Consumed(c, es) == |es|
    decreases |es|
  {
    if es != [] {
      hide Step;
      AllConsumed(Step(c, es[0]), es[1..]);
    }
  }

  /** In every run, at every moment, a waiting refresh goes away only by being sent, not
      before it is due, or by being replaced with one due no earlier. */
  lemma {:induction false} RefreshNotLost(lines: nat, got: Recv, now: int, es: seq<Event>, more: seq<Event>)
    requires ClockFrom(now, es + more)
    ensures var c := Run(ClientModel.Start(lines, got, now), es);
            var d := Run(ClientModel.Start(lines, got, now), es + more);
            c.deferred > 0 ==> d.deferred >= c.deferred || ServedAfter(d.acts, |c.acts|, c.deferred)
  {
    hide ClientModel.Start, Timely;
    var s := ClientModel.Start(lines, got, now);
    var c := Run(s, es);
    RunAppend(s, es, more);
    ClockSplit(now, es, more);
    if c.running && c.deferred > 0 {
      RunTimely(lines, got, now, es);
      AllConsumed(s, es);
      RefreshServed(c, more, LastRead(s, es, now));
    }
  }

  /** What one step can do to a waiting refresh. */
  predicate RefreshKept(c: Client, s: Client, t: int) {
    && c.acts <= s.acts
    && (s.deferred >= c.deferred
        || (t >= c.deferred && |c.acts| < |s.acts| && s.acts[|c.acts|] == Deferred(t)))
  }

  lemma IdleDeferred(c: Client, e: Event)
    ensures RefreshKept(c, Idle(c, e), e.t1)
  {
    hide ParseText, CountLines, CStr;
  }

  lemma PressDeferred(c: Client, e: Event)
    requires e.t1 + CMD_REFRESH_DELAY >= c.deferred
    ensures RefreshKept(c, PressLine(c, e), e.t1)
  {
    hide HandleCommand, PressKey, Message;
    var l := PressKey(c.line, e.ch).0;
    CommandTimers(c.(line := l), l.Text(), e);
  }

  lemma StepDeferred(c: Client, e: Event, now: int)
    requires Timely(c, now) && ReadAfter(now, e) && c.deferred > 0
    ensures RefreshKept(c, Step(c, e), e.t1)
  {
    hide Idle, PressLine, DialogText, LaunchMessage, ScrollClamp, ProcHeight, Spaced, NoneAfter, NoDeferredAfter;
    IdleDeferred(c, e);
    PressDeferred(c, e);
  }

  lemma {:induction false} ActsGrow(c: Client, es: seq<Event>)
    ensures c.acts <= Run(c, es).acts
    decreases |es|
  {
    if es != [] && c.running {
      ActsGrowStep(c, es[0]);
      ActsGrow(Step(c, es[0]), es[1..]);
    }
  }

  lemma ActsGrowStep(c: Client, e: Event)
    ensures c.acts <= Step(c, e).acts
  {
    hide Idle, PressLine, DialogText, LaunchMessage, ScrollClamp, ProcHeight;
    IdleDeferred(c, e);
    PressActs(c, e);
  }

  lemma PressActs(c: Client, e: Event)
    ensures c.acts <= PressLine(c, e).acts
  {
    hide HandleCommand, PressKey, Message;
    var l := PressKey(c.line, e.ch).0;
    CommandTimers(c.(line := l), l.Text(), e);
  }

  // ----- The scroll window -----

  function ArrowKey(delta: int): int {
    if delta < 0 then KEY_UP else KEY_DOWN
  }

  predicate PressesArrows(es: seq<Event>, keys: seq<int>) {
    |es| == |keys| && forall i :: 0 <= i < |es| ==> es[i].ch == ArrowKey(keys[i])
  }

  /** Arrow keys in the list panel move the offset and nothing else. */
  lemma {:induction false} RunArrows(c: Client, es: seq<Event>, keys: seq<int>)
    requires c.running && c.listFocused && AreArrows(keys) && PressesArrows(es, keys)
    ensures Run(c, es) == c.(scroll := Scroll(c.scroll, keys, |c.list|, c.procHeight - 3))
    decreases |es|
  {
    if es != [] {
      RunArrows(Step(c, es[0]), es[1..], keys[1..]);
    }
  }

  /** An arrow key in the list panel leaves a window with as many rows as it can hold,
      however the list or the panel has changed since the last one. */
  lemma ArrowFillsWindow(c: Client, e: Event, width: int)
    requires c.listFocused && (e.ch == KEY_UP || e.ch == KEY_DOWN)
    requires c.procHeight >= 3 && width >= 3
    ensures var s := Step(c, e);
            && s.scroll <= MaxOffset(|s.list|, s.procHeight - 3)
            && |Window(s.list, s.procHeight, width, s.scroll)| ==
               if |s.list| < s.procHeight - 3 then |s.list| else s.procHeight - 3
  {
    var s := Step(c, e);
    FullWindow(s.list, s.procHeight, width, s.scroll);
  }

  predicate InView(c: Client, scroll: nat, width: int, i: nat) {
    var rows := Window(c.list, c.procHeight, width, scroll);
    i < |c.list| && scroll <= i < scroll + |rows| && rows[i - scroll] == c.list[i]
  }

  /** From every state with the list panel focused, arrow keys alone make any entry visible
      if and only if the terminal the panel was laid out for has at least 12 lines; below
      that no offset at all shows it. */
  lemma EntryComesIntoView(c: Client, lines: nat, width: int, i: nat) returns (es: seq<Event>)
    requires c.running && c.listFocused && c.procHeight == ProcHeight(lines)
    requires i < |c.list| && width >= 3
    ensures forall k :: 0 <= k < |es| ==> es[k].ch == KEY_UP || es[k].ch == KEY_DOWN
    ensures Run(c, es) == c.(scroll := Run(c, es).scroll)
    ensures InView(c, Run(c, es).scroll, width, i) <==> lines >= 12
    ensures lines < 12 ==> forall scroll: nat :: !InView(c, scroll, width, i)
  {
    hide Window;
    var keys := EveryEntryReachable(c.list, c.procHeight, width, c.scroll, i);
    es := seq(|keys|, k requires 0 <= k < |keys| => Event(ArrowKey(keys[k]), 0, 0, 0, NoData, [], 0));
    RunArrows(c, es, keys);
    LayoutPromises(lines);
  }
}
