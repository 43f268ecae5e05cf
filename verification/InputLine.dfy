/** The client's line editor: a fixed buffer edited in place at a cursor. */
module InputLines {
  import opened CText

  const INPUT_BUF_SIZE: nat := 256
  const TEXT_MAX: nat := 255

  // Key codes of the curses library.
  const KEY_DOWN: int := 258
  const KEY_UP: int := 259
  const KEY_BACKSPACE: int := 263
  const KEY_F1: int := 265
  const KEY_F2: int := 266
  const KEY_ENTER: int := 343
  const KEY_RESIZE: int := 410

  predicate IsEnter(ch: int) {
    ch == 10 || ch == 13 || ch == KEY_ENTER
  }

  predicate IsErase(ch: int) {
    ch == KEY_BACKSPACE || ch == 127 || ch == 8
  }

  predicate IsPrintKey(ch: int) {
    32 <= ch <= 126
  }

  /** The line as the user sees it: the text on either side of the cursor. */
  datatype Line = Line(before: string, after: string) {
    function Text(): string {
      before + after
    }
  }

  const EMPTY: Line := Line("", "")

  function Insert(l: Line, c: char): Line {
    l.(before := l.before + [c])
  }

  function Erase(l: Line): Line {
    if l.before == "" then l else l.(before := l.before[..|l.before| - 1])
  }

  /** What a key does to the line, and whether it completes a command. */
  function PressKey(l: Line, ch: int): (Line, bool) {
    if IsEnter(ch) then
      if l.Text() == "" then (l, false) else (Line(Upper(l.before), Upper(l.after)), true)
    else if IsErase(ch) then (Erase(l), false)
    else if IsPrintKey(ch) && |l.Text()| < TEXT_MAX then (Insert(l, ch as char), false)
    else (l, false)
  }

  /** A text the line can hold. */
  predicate IsPending(s: string) {
    |s| <= TEXT_MAX && forall i :: 0 <= i < |s| ==> IsPrint(s[i])
  }

  lemma PressKeepsPending(l: Line, ch: int)
    requires IsPending(l.Text())
    ensures IsPending(PressKey(l, ch).0.Text())
  {
    if !IsEnter(ch) && IsErase(ch) && l.before != "" {
      var l' := Erase(l);
      assert forall i :: 0 <= i < |l'.before| ==> l'.Text()[i] == l.Text()[i];
      assert forall i :: |l'.before| <= i < |l'.Text()| ==> l'.Text()[i] == l.Text()[i + 1];
    } else {
      assert forall i :: 0 <= i < |l.before| ==> IsPrint(l.Text()[i]) && l.before[i] == l.Text()[i];
      assert forall i :: 0 <= i < |l.after| ==>
                 IsPrint(l.Text()[|l.before| + i]) && l.after[i] == l.Text()[|l.before| + i];
    }
  }

  /** Backspace undoes every accepted insert, wherever the cursor is. */
  lemma EraseUndoesInsert(l: Line, ch: int, erase: int)
    requires IsPrintKey(ch) && |l.Text()| < TEXT_MAX && IsErase(erase)
    ensures PressKey(l, ch).0 != l && PressKey(PressKey(l, ch).0, erase).0 == l
  {
    assert Insert(l, ch as char).before[..|l.before|] == l.before;
    assert |Insert(l, ch as char).before| == |l.before| + 1;
  }

  /** What each key does to a line, wherever the cursor is, by its code: Enter upper-cases a text
      that is not empty, the erasing keys take off the character before the cursor, and
      printable keys go in there while the text has fewer than 255 characters. */
  lemma KeysExact(l: Line, ch: int)
    ensures var text := l.before + l.after;
            PressKey(l, ch) ==
            if ch == 10 || ch == 13 || ch == 343
            then if text == "" then (l, false) else (Line(Upper(l.before), Upper(l.after)), true)
            else if ch == 8 || ch == 127 || ch == 263
            then (if l.before == "" then l else Line(l.before[..|l.before| - 1], l.after), false)
            else if 32 <= ch <= 126 && |text| < 255 then (Line(l.before + [ch as char], l.after), false)
            else (l, false)
  {
  }

  function PressKeys(l: Line, keys: seq<int>): Line
    decreases |keys|
  {
    if keys == [] then l else PressKeys(PressKey(l, keys[0]).0, keys[1..])
  }

  /** From an empty line every key sequence, Enter included, keeps the cursor at the end of
      printable text that fits the buffer. */
  lemma {:induction false} CursorStaysAtEnd(l: Line, keys: seq<int>)
    requires l.after == "" && IsPending(l.Text())
    ensures PressKeys(l, keys).after == "" && IsPending(PressKeys(l, keys).Text())
    decreases |keys|
  {
    if keys != [] {
      PressKeepsPending(l, keys[0]);
      assert Upper("") == "";
      CursorStaysAtEnd(PressKey(l, keys[0]).0, keys[1..]);
    }
  }

  method Memmove(a: array<char>, dst: nat, src: nat, n: nat)
    requires dst + n <= a.Length && src + n <= a.Length
    modifies a
    ensures forall k :: 0 <= k < a.Length ==>
              a[k] == if dst <= k < dst + n then old(a[src + (k - dst)]) else old(a[k])
  {
    if dst < src {
      var i := 0;
      while i < n
        invariant i <= n
        invariant forall k :: 0 <= k < a.Length ==>
                    a[k] == if dst <= k < dst + i then old(a[src + (k - dst)]) else old(a[k])
      {
        a[dst + i] := a[src + i];
        i := i + 1;
      }
    } else {
      var i := n;
      while i > 0
        invariant 0 <= i <= n
        invariant forall k :: 0 <= k < a.Length ==>
                    a[k] == if dst + i <= k < dst + n then old(a[src + (k - dst)]) else old(a[k])
      {
        i := i - 1;
        a[dst + i] := a[src + i];
      }
    }
  }

  class InputLine {
    const buffer: array<char>
    var cursorPos: nat
    var length: nat

    ghost predicate Valid()
      reads this, buffer
    {
      buffer.Length == INPUT_BUF_SIZE && cursorPos <= length <= TEXT_MAX
    }

    ghost function View(): (l: Line)
      requires Valid()
      reads this, buffer
      ensures |l.before| == cursorPos && |l.Text()| == length
    {
      Line(buffer[..][..cursorPos], buffer[..][cursorPos..length])
    }

    /** Nothing but zeros behind the text. */
    ghost predicate ZeroBehind()
      requires Valid()
      reads this, buffer
    {
      forall k :: length <= k < INPUT_BUF_SIZE ==> buffer[k] == NUL
    }

    /** The state every run of the editor keeps: printable text, then zeros. */
    ghost predicate Clean()
      reads this, buffer
    {
      Valid() && ZeroBehind() && forall k :: 0 <= k < length ==> IsPrint(buffer[k])
    }

    constructor ()
      ensures Clean() && View() == EMPTY && fresh(buffer)
    {
      buffer := new char[INPUT_BUF_SIZE](_ => NUL);
      cursorPos, length := 0, 0;
    }

    method Clear()
      requires buffer.Length == INPUT_BUF_SIZE
      modifies this, buffer
      ensures Clean() && View() == EMPTY
    {
      forall k | 0 <= k < buffer.Length {
        buffer[k] := NUL;
      }
      cursorPos, length := 0, 0;
    }

    /** Inserts at the cursor; holds in every valid state, wherever the cursor is. */
    method InsertKey(c: char)
      requires Valid() && length < TEXT_MAX
      modifies this, buffer
      ensures Valid() && View() == Line(old(View()).before + [c], old(View()).after)
      ensures buffer[length] == NUL
      ensures forall k :: length < k < INPUT_BUF_SIZE ==> buffer[k] == old(buffer[k])
    {
      ghost var was, at, n := buffer[..], cursorPos, length;
      PutAt(c);
      cursorPos := cursorPos + 1;
      length := length + 1;
      ghost var now := buffer[..];
      assert now[..at + 1] == was[..at] + [c];
      assert now[at + 1..n + 1] == was[at..n];
    }

    /** Moves the text behind the cursor up and puts `c` in the gap. */
    method PutAt(c: char)
      requires Valid() && length < TEXT_MAX
      modifies buffer
      ensures forall k :: 0 <= k < INPUT_BUF_SIZE ==>
                buffer[k] == if k == cursorPos then c
                             else if cursorPos < k <= length then old(buffer[k - 1])
                             else if k == length + 1 then NUL else old(buffer[k])
    {
      Memmove(buffer, cursorPos + 1, cursorPos, length - cursorPos);
      buffer[cursorPos] := c;
      buffer[length + 1] := NUL;
    }

    /** Erases before the cursor; holds in every valid state. */
    method EraseKey()
      requires Valid()
      modifies this, buffer
      ensures Valid()
      ensures var was := old(View());
              View() == if was.before == "" then was else Line(was.before[..|was.before| - 1], was.after)
      ensures old(cursorPos) > 0 ==> buffer[length] == NUL && length == old(length) - 1
      ensures old(cursorPos) == 0 ==> buffer[..] == old(buffer[..]) && length == old(length)
      ensures forall k :: length < k < INPUT_BUF_SIZE ==> buffer[k] == old(buffer[k])
    {
      ghost var was := View();
      if cursorPos > 0 {
        Memmove(buffer, cursorPos - 1, cursorPos, length - cursorPos);
        cursorPos := cursorPos - 1;
        length := length - 1;
        buffer[length] := NUL;
        assert buffer[..][..cursorPos] == was.before[..cursorPos];
        assert buffer[..][cursorPos..length] == was.after;
      }
    }

    /** Upper-cases the C string in the buffer, in place. */
    method ToUppercase()
      requires Clean()
      modifies buffer
      ensures Clean() && View() == Line(Upper(old(View()).before), Upper(old(View()).after))
    {
      ghost var was := View();
      var i := 0;
      while buffer[i] != NUL
        invariant i <= length
        invariant forall k :: 0 <= k < INPUT_BUF_SIZE ==>
                    buffer[k] == if k < i then ToUpper(old(buffer[k])) else old(buffer[k])
        decreases length - i
      {
        assert i < length;
        buffer[i] := ToUpper(buffer[i]);
        i := i + 1;
      }
      assert i == length;
      assert View().before == Upper(was.before);
      assert View().after == Upper(was.after);
    }

    /** One key: 1 when a command is complete, else 0. */
    method HandleKey(ch: int) returns (r: int)
      requires Clean()
      modifies this, buffer
      ensures Clean() && View() == PressKey(old(View()), ch).0
      ensures r == if PressKey(old(View()), ch).1 then 1 else 0
    {
      ViewIsPending();
      PressKeepsPending(View(), ch);
      r := 0;
      if IsEnter(ch) {
        if length == 0 {
          return;
        }
        ToUppercase();
        return 1;
      }
      if IsErase(ch) {
        EraseKey();
        PrintableText();
        return;
      }
      if IsPrintKey(ch) && length < INPUT_BUF_SIZE - 1 {
        InsertKey(ch as char);
        PrintableText();
      }
    }

    /** The C string in the buffer. */
    method CommandText() returns (cmd: string)
      requires Clean()
      ensures cmd == View().Text()
    {
      cmd := buffer[..length];
    }

    lemma ViewIsPending()
      requires Clean()
      ensures IsPending(View().Text())
    {
      forall k | 0 <= k < length ensures IsPrint(View().Text()[k]) {
        assert View().Text()[k] == buffer[k];
      }
    }

    /** Printable text in the view is printable text in the buffer. */
    lemma PrintableText()
      requires Valid() && IsPending(View().Text())
      ensures forall k :: 0 <= k < length ==> IsPrint(buffer[k])
    {
      forall k | 0 <= k < length ensures IsPrint(buffer[k]) {
        assert View().Text()[k] == buffer[k];
      }
    }
  }

  // ----- Typing -----

  /** The text typed since the last command, and the commands completed so far. */
  datatype Typed = Typed(pending: string, commands: seq<string>)

  /** The meaning of typing, without a buffer or a cursor: characters are added and taken
      off at the end, and Enter turns pending text into an upper-case command. */
  function TypeKey(t: Typed, ch: int): Typed {
    if ch == 10 || ch == 13 || ch == 343 then
      if t.pending == "" then t else Typed("", t.commands + [Upper(t.pending)])
    else if ch == 8 || ch == 127 || ch == 263 then
      if t.pending == "" then t else t.(pending := t.pending[..|t.pending| - 1])
    else if 32 <= ch <= 126 && |t.pending| < 255 then t.(pending := t.pending + [ch as char])
    else t
  }

  /** A command as the client sends it: 1 to 255 printable characters, none in lower case. */
  predicate IsCommand(s: string) {
    s != "" && IsPending(s) && forall i :: 0 <= i < |s| ==> !IsLower(s[i])
  }

  predicate GoodTyped(t: Typed) {
    IsPending(t.pending) && forall i :: 0 <= i < |t.commands| ==> IsCommand(t.commands[i])
  }

  lemma UpperIsCommand(s: string)
    requires s != "" && IsPending(s)
    ensures IsCommand(Upper(s))
  {
    forall i | 0 <= i < |s| ensures IsPrint(Upper(s)[i]) && !IsLower(Upper(s)[i]) {
      assert Upper(s)[i] == ToUpper(s[i]);
    }
  }

  lemma TypeKeyGood(t: Typed, ch: int)
    requires GoodTyped(t)
    ensures GoodTyped(TypeKey(t, ch))
  {
    if t.pending != "" {
      UpperIsCommand(t.pending);
    }
  }

  /** The editor does to an end-of-line cursor what typing means. */
  lemma PressIsTyping(t: Typed, ch: int)
    ensures var (l, ready) := PressKey(Line(t.pending, ""), ch);
            var t' := TypeKey(t, ch);
            && l.after == ""
            && (ready <==> t'.commands != t.commands)
            && (if ready then t' == Typed("", t.commands + [l.Text()]) else t' == Typed(l.Text(), t.commands))
  {
    var l := Line(t.pending, "");
    assert l.Text() == t.pending;
    assert Upper("") == "" && Upper(t.pending) + "" == Upper(t.pending);
    var l' := PressKey(l, ch).0;
    assert l'.before + "" == l'.before;
  }
}
