/** The client's state, updated in place by the passes of its main loop. */
module Tui {
  import opened CText
  import opened CBuffer
  import opened ClientModel
  import opened InputLines
  import opened Options
  import opened Panels
  import opened ProcessLists
  import opened ProcessText

  lemma CStrUpTo(buf: string, n: nat)
    requires n < |buf| && buf[n] == NUL
    ensures CStr(buf) == CStr(buf[..n])
  {
    var t := CStr(buf[..n]);
    assert t == buf[..|t|];
    CStrIs(buf, |t|);
  }

  /** Counts newlines, and one more for an unfinished last line. */
  method LineCount(buf: array<char>, n: nat) returns (count: nat)
    requires n <= buf.Length
    ensures count == CountLines(buf[..n])
  {
    count := 0;
    for i := 0 to n
      invariant count == NewlineCount(buf[..i])
    {
      assert buf[..i + 1][..i] == buf[..i];
      if buf[i] == NEWLINE {
        count := count + 1;
      }
    }
    if n > 0 && buf[n - 1] != NEWLINE {
      count := count + 1;
    }
  }

  predicate FitsBuffer(got: Recv) {
    got.Data? ==> 0 < |got.bytes| < 65536
  }

  /** What a plain command does, step by step. */
  lemma PlainHandled(c: Client, cmd: string, e: Event)
    requires IsPlain(cmd)
    ensures var sent := c.(acts := c.acts + [Handled(cmd, Some(PlainMessage(cmd)))]);
            var answered := if e.got.Data? then Received(sent, e.got.bytes).(scroll := 0) else sent;
            HandleCommand(c, cmd, e) ==
            if e.got.Closed? then sent.(running := false)
            else if "START " <= cmd || "STOP " <= cmd then answered.(deferred := e.t1 + CMD_REFRESH_DELAY)
            else answered
  {
    hide Received, PlainMessage;
  }

  class TuiState {
    const input: InputLine
    const procList: ProcessList
    var procLines: array?<char>
    var procLineCount: nat
    var procScrollOffset: nat
    var running: bool
    var focused: int
    var procHeight: nat
    var connected: bool
    var lastListTime: int
    var deferredListAt: int
    var acts: seq<Act>

    ghost predicate Valid()
      reads this, input, input.buffer, procList
    {
      && input.Clean() && procList.Valid()
      && (procLines != null ==> procLines.Length > 0 && procLines != input.buffer)
      && (focused == 0 || focused == 1)
    }

    ghost function View(): Client
      requires Valid()
      reads this, input, input.buffer, procList, procList.entries, procLines
    {
      Client(input.View(),
             if procLines == null then None else Some(procLines[..procLines.Length - 1]),
             procLineCount, procList.Items(), procScrollOffset, running, focused == 0,
             procHeight, connected, lastListTime, deferredListAt, acts)
    }

    /** The state when the loop starts: `got` is the answer to the connection dialog's LIST. */
    constructor (lines: nat, got: Recv, now: int)
      requires FitsBuffer(got)
      ensures Valid() && View() == Start(lines, got, now)
      ensures fresh(input) && fresh(input.buffer) && fresh(procList)
    {
      input := new InputLine();
      procList := new ProcessList();
      procLines, procLineCount, procScrollOffset := null, 0, 0;
      running, focused, connected := true, 1, true;
      lastListTime, deferredListAt, acts := now, 0, [];
      var h, i, s := CalcDimensions(lines);
      procHeight := h;
      new;
      if got.Data? {
        Store(got.bytes);
      }
      procScrollOffset := 0;
    }

    /** Replaces the raw text, its line count and the parsed list by those of `n` received bytes. */
    method StoreResponse(buf: array<char>, n: nat)
      requires Valid() && n < buf.Length && buf[n] == NUL && buf != input.buffer
      modifies this, procList
      ensures Valid() && View() == Received(old(View()), old(buf[..n]))
    {
      hide ParseText, CountLines, CStr;
      ghost var bytes := buf[..n];
      var copy := new char[n + 1];
      for i := 0 to n + 1
        modifies copy
        invariant copy[..i] == buf[..i]
      {
        copy[i] := buf[i];
      }
      assert copy[..n] == bytes by {
        assert copy[..n + 1] == buf[..n + 1];
        assert copy[..n + 1][..n] == copy[..n] && buf[..n + 1][..n] == bytes;
      }
      procLines := copy;
      procLineCount := LineCount(buf, n);
      procList.Free();
      CStrUpTo(buf[..], n);
      assert buf[..][..n] == bytes && buf[..][n] == NUL;
      var rc := procList.Parse(buf);
    }

    /** The received bytes go through a buffer of the receiver's own. */
    method Store(bytes: string)
      requires Valid() && |bytes| < 65536
      modifies this, procList
      ensures Valid() && View() == Received(old(View()), bytes)
    {
      hide ParseText, CountLines, CStr;
      var buf := new char[NET_BUFFER_SIZE];
      Fill(buf, bytes);
      buf[|bytes|] := NUL;
      StoreResponse(buf, |bytes|);
    }

    /** The response to a command that is sent as it is. */
    method TakeResponse(e: Event)
      requires Valid() && FitsBuffer(e.got)
      modifies this, procList
      ensures Valid()
      ensures View() == if e.got.Data? then Received(old(View()), e.got.bytes).(scroll := 0)
                        else if e.got.Closed? then old(View()).(running := false) else old(View())
    {
      hide Received;
      if e.got.Data? {
        Store(e.got.bytes);
        procScrollOffset := 0;
      } else if e.got.Closed? {
        running := false;
      }
    }

    /** A command that is sent as it is, and whose response replaces the list. */
    method PlainCommand(cmd: string, e: Event)
      requires Valid() && FitsBuffer(e.got) && IsPlain(cmd)
      modifies this, procList
      ensures Valid() && View() == HandleCommand(old(View()), cmd, e)
    {
      hide Received, Snprintf, HandleCommand, IsPlain;
      ghost var c := View();
      PlainHandled(c, cmd, e);
      var message := Snprintf(INPUT_BUF_SIZE + 2, cmd + [NEWLINE]);
      acts := acts + [Handled(cmd, Some(message))];
      assert View() == c.(acts := c.acts + [Handled(cmd, Some(PlainMessage(cmd)))]);
      TakeResponse(e);
      if e.got.Closed? {
        return;
      }
      if "START " <= cmd || "STOP " <= cmd {
        deferredListAt := e.t1 + CMD_REFRESH_DELAY;
      }
    }

    /** Handles a completed command; 1 for EXIT. */
    method Command(cmd: string, e: Event) returns (r: int)
      requires Valid() && FitsBuffer(e.got)
      modifies this, procList
      ensures Valid()
      ensures r == if cmd == "EXIT" then 1 else 0
      ensures if r == 1 then running == old(running) && View().(running := false) == HandleCommand(old(View()), cmd, e)
              else View() == HandleCommand(old(View()), cmd, e)
    {
      hide Received;
      r := 0;
      if cmd == "HELP" {
        acts := acts + [Handled(cmd, None)];
      } else if "RUN " <= cmd {
        var aliased := Snprintf(INPUT_BUF_SIZE + 2, "START " + cmd[4..]);
        var message := Snprintf(INPUT_BUF_SIZE + 4, aliased + [NEWLINE]);
        acts := acts + [Handled(cmd, Some(message))];
        deferredListAt := e.t1 + CMD_REFRESH_DELAY;
        assert cmd[0] == 'R';
      } else if cmd == "EXIT" {
        acts := acts + [Handled(cmd, Some(EXIT_MESSAGE))];
        r := 1;
      } else {
        PlainCommand(cmd, e);
      }
    }

    method TakeAsync(e: Event)
      requires Valid() && FitsBuffer(e.got)
      modifies this, procList
      ensures Valid() && View() == AsyncReceive(old(View()), e)
    {
      hide Received;
      if connected {
        if e.got.Data? {
          Store(e.got.bytes);
        } else if !e.got.NoData? {
          running := false;
        }
      }
    }

    /** A pass without a key: whatever the socket has, then the two timers. */
    method Tick(e: Event)
      requires Valid() && FitsBuffer(e.got)
      modifies this, procList
      ensures Valid() && View() == Idle(old(View()), e)
    {
      hide AsyncReceive;
      TakeAsync(e);
      if deferredListAt > 0 && connected {
        if e.t1 >= deferredListAt {
          deferredListAt := 0;
          lastListTime := e.t2;
          acts := acts + [Deferred(e.t1)];
        }
      }
      if connected {
        if e.t3 - lastListTime >= LIST_INTERVAL {
          lastListTime := e.t3;
          acts := acts + [Periodic(e.t3)];
        }
      }
    }

    /** The launch dialog: edits its own buffer until Enter or ESC. */
    method RunDialog(e: Event)
      requires Valid()
      modifies this
      ensures Valid() && View() == LaunchDialog(old(View()), e)
    {
      var text := "";
      var i := 0;
      var sent := None;
      while i < |e.keys|
        modifies {}
        invariant i <= |e.keys| && IsPending(text)
        invariant DialogText("", e.keys) == DialogText(text, e.keys[i..]) && sent == None
      {
        var ch := e.keys[i];
        assert e.keys[i..][1..] == e.keys[i + 1..];
        if ch == ESC {
          return;
        }
        if IsEnter(ch) {
          if text != "" {
            sent := Some(text);
            break;
          }
        } else if IsErase(ch) {
          text := if text == "" then text else text[..|text| - 1];
        } else if IsPrintKey(ch) && |text| < INPUT_BUF_SIZE - 1 {
          text := text + [ch as char];
        }
        i := i + 1;
      }
      if sent.Some? {
        var message := Snprintf(INPUT_BUF_SIZE + 8, "START " + sent.value + [NEWLINE]);
        acts := acts + [Launched(sent.value, message)];
        deferredListAt := e.t1 + CMD_REFRESH_DELAY;
      }
    }

    /** Handles a completed command and stops the loop after EXIT. */
    method Handle(cmd: string, e: Event)
      requires Valid() && FitsBuffer(e.got)
      modifies this, procList
      ensures Valid() && View() == HandleCommand(old(View()), cmd, e)
    {
      hide HandleCommand;
      var exit := Command(cmd, e);
      if exit == 1 {
        running := false;
      }
    }

    /** Hands the completed line to the command handler and empties it. */
    method Submit(e: Event)
      requires Valid() && FitsBuffer(e.got)
      modifies this, input, input.buffer, procList
      ensures Valid()
      ensures View() == HandleCommand(old(View()), old(View()).line.Text(), e).(line := EMPTY, lastList := e.t2)
    {
      hide HandleCommand;
      var cmd := input.CommandText();
      Handle(cmd, e);
      input.Clear();
      lastListTime := e.t2;
    }

    /** The key that reaches the editor, and the command it may complete. */
    method EditLine(e: Event)
      requires Valid() && FitsBuffer(e.got)
      modifies this, input, input.buffer, procList
      ensures Valid() && View() == PressLine(old(View()), e)
    {
      hide HandleCommand, PressKey;
      var ready := input.HandleKey(e.ch);
      if ready == 1 {
        Submit(e);
      }
    }

    /** One pass of the loop. */
    method Pass(e: Event)
      requires Valid() && FitsBuffer(e.got)
      modifies this, input, input.buffer, procList
      ensures Valid() && View() == Step(old(View()), e)
    {
      hide Idle, LaunchDialog, PressLine, ScrollClamp;
      if e.ch == NO_KEY {
        Tick(e);
      } else if e.ch == CTRL_C {
        running := false;
      } else if e.ch == KEY_RESIZE {
        var h, i, s := CalcDimensions(e.lines);
        procHeight := h;
      } else if e.ch == TAB {
        focused := if focused == 0 then 1 else 0;
      } else if focused == 0 && (e.ch == KEY_UP || e.ch == KEY_DOWN) {
        var visible := procHeight - 3;
        procScrollOffset := ScrollClamp(procScrollOffset, if e.ch == KEY_UP then -1 else 1, procList.count, visible);
      } else if e.ch == KEY_F1 {
        // the help dialog changes nothing here
      } else if e.ch == KEY_F2 {
        RunDialog(e);
      } else {
        EditLine(e);
      }
    }

    /** The loop; `drawn` holds the rows drawn at the start of each pass, for panels `width` wide. */
    method Loop(es: seq<Event>, width: int) returns (drawn: seq<seq<Entry>>)
      requires Valid() && forall i :: 0 <= i < |es| ==> FitsBuffer(es[i].got)
      modifies this, input, input.buffer, procList
      ensures Valid() && View() == Run(old(View()), es)
      ensures drawn == Frames(old(View()), es, width)
    {
      hide Step, Window, Run, Frames;
      drawn := [];
      var i := 0;
      while i < |es| && running
        invariant Valid() && i <= |es|
        invariant Run(View(), es[i..]) == Run(old(View()), es)
        invariant drawn + Frames(View(), es[i..], width) == Frames(old(View()), es, width)
      {
        var rows := procList.VisibleRows(procHeight, width, procScrollOffset);
        RunCons(View(), es, i, width);
        AppendAssoc(drawn, [rows], Frames(Step(View(), es[i]), es[i + 1..], width));
        drawn := drawn + [rows];
        Pass(es[i]);
        i := i + 1;
      }
      RunEnds(View(), es[i..], width);
    }
  }

  /** The rows drawn by each pass of a run. */
  function Frames(c: Client, es: seq<Event>, width: int): (fs: seq<seq<Entry>>)
    ensures |fs| == Consumed(c, es)
    decreases |es|
  {
    if es == [] || !c.running then []
    else [Window(c.list, c.procHeight, width, c.scroll)] + Frames(Step(c, es[0]), es[1..], width)
  }

  lemma RunEnds(c: Client, es: seq<Event>, width: int)
    requires es == [] || !c.running
    ensures Run(c, es) == c && Frames(c, es, width) == []
  {
  }

  lemma RunCons(c: Client, es: seq<Event>, i: nat, width: int)
    requires i < |es| && c.running
    ensures Run(c, es[i..]) == Run(Step(c, es[i]), es[i + 1..])
    ensures Frames(c, es[i..], width) ==
            [Window(c.list, c.procHeight, width, c.scroll)] + Frames(Step(c, es[i]), es[i + 1..], width)
  {
    hide Step, Window;
    assert es[i..][1..] == es[i + 1..] && es[i..][0] == es[i];
  }
}
