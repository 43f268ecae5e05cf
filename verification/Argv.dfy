/** The argument vector that the server's child builds for `execvp`. */
module Argv {
  import opened CText
  import opened CBuffer
  import opened Options
  import opened Tokens

  const ARGS_MAX: nat := 15
  const COPY_SIZE: nat := 1024

  /** The part of a command that the child's copy holds. */
  function CopyOf(command: string): string {
    First(command, COPY_SIZE - 1)
  }

  function ArgvOf(command: string): seq<string> {
    First(Words(CopyOf(command)), ARGS_MAX)
  }

  /** The pointers `args` reach the tokens `ws`, all of which end before `bound`. */
  ghost predicate Stored(buf: string, args: seq<Option<nat>>, ws: seq<string>, bound: nat) {
    && |args| == |ws|
    && forall k :: 0 <= k < |args| ==>
         args[k].Some? && TokenAt(buf, args[k].value, ws[k]) && args[k].value + |ws[k]| <= bound
  }

  /** Tokens stay in place when a later cut is made behind them. */
  lemma StoredKept(buf: string, args: seq<Option<nat>>, ws: seq<string>, bound: nat, cut: nat, bound': nat)
    requires Stored(buf, args, ws, bound) && bound <= cut < |buf| && bound <= bound'
    ensures Stored(buf[cut := NUL], args, ws, bound')
  {
    forall k | 0 <= k < |args| ensures TokenAt(buf[cut := NUL], args[k].value, ws[k]) {
      assert TokenAt(buf, args[k].value, ws[k]);
    }
  }

  lemma StoredMore(buf: string, args: seq<Option<nat>>, ws: seq<string>, bound: nat, at: nat, w: string)
    requires Stored(buf, args, ws, bound) && TokenAt(buf, at, w) && at + |w| <= bound
    ensures Stored(buf, args + [Some(at)], ws + [w], bound)
  {
  }

  lemma AppendOne(taken: seq<string>, w: string, more: seq<string>)
    ensures taken + ([w] + more) == (taken + [w]) + more
  {
  }

  lemma TakeAll(taken: seq<string>, rest: seq<string>)
    requires rest == [] || |taken| == ARGS_MAX
    requires |taken| <= ARGS_MAX
    ensures First(taken + rest, ARGS_MAX) == taken
  {
  }

  /** The words still to come when token `t` has been read and `rest` is left. */
  function Pending(t: Option<string>, rest: string): seq<string> {
    if t.Some? then [t.value] + Words(rest) else []
  }

  /** One `strtok` call with a space: `t` is the word the returned index points to. */
  method NextArg(scanner: Scanner) returns (token: Option<nat>, ghost t: Option<string>, ghost cut: nat)
    requires scanner.Valid()
    modifies scanner, scanner.buf
    ensures scanner.Valid() && old(scanner.save) <= cut <= scanner.save
    ensures cut < scanner.buf.Length && scanner.buf[..] == old(scanner.buf[..])[cut := NUL]
    ensures old(Words(scanner.Rest())) == Pending(t, scanner.Rest())
    ensures token.Some? <==> t.Some?
    ensures token.Some? ==> TokenAt(scanner.buf[..], token.value, t.value) && token.value + |t.value| == cut
  {
    NextWord(scanner.Rest());
    t := NextToken(scanner.Rest(), " ").0;
    token, cut := scanner.Next(" ");
  }

  /** The loop over the tokens of the copied command. */
  method FillArgs(scanner: Scanner, args: array<Option<nat>>, ghost ws: seq<string>)
    returns (i: nat, ghost taken: seq<string>)
    requires scanner.Valid() && ws == Words(scanner.Rest()) && args.Length == ARGS_MAX + 1
    modifies scanner, scanner.buf, args
    ensures i == |taken| <= ARGS_MAX && taken == First(ws, ARGS_MAX)
    ensures Stored(scanner.buf[..], args[..i], taken, scanner.save)
  {
    hide Words, CStr, TokenAt;
    i, taken := 0, [];
    ghost var stored: seq<Option<nat>> := [];
    var token, t, cut := NextArg(scanner);
    while token.Some? && i < ARGS_MAX
      invariant i == |taken| <= ARGS_MAX
      invariant scanner.Valid() && cut <= scanner.save
      invariant token.Some? <==> t.Some?
      invariant token.Some? ==> TokenAt(scanner.buf[..], token.value, t.value) && token.value + |t.value| == cut
      invariant ws == taken + Pending(t, scanner.Rest())
      invariant args[..i] == stored && Stored(scanner.buf[..], stored, taken, scanner.save)
    {
      ghost var was, bound := scanner.buf[..], scanner.save;
      StoredMore(was, stored, taken, bound, token.value, t.value);
      AppendOne(taken, t.value, Words(scanner.Rest()));
      taken, stored := taken + [t.value], stored + [token];
      args[i] := token;
      i := i + 1;
      assert args[..i] == stored;
      token, t, cut := NextArg(scanner);
      StoredKept(was, stored, taken, bound, cut, scanner.save);
    }
    TakeAll(taken, Pending(t, scanner.Rest()));
  }

  /** The vector of pointers into the copied command: `i` arguments and a null pointer. */
  method BuildArgv(command: string) returns (copy: array<char>, args: array<Option<nat>>, i: nat)
    requires NUL !in command
    ensures args.Length == ARGS_MAX + 1
    ensures i == |ArgvOf(command)| <= ARGS_MAX && args[i] == None
    ensures forall k :: 0 <= k < i ==> args[k].Some? && TokenAt(copy[..], args[k].value, ArgvOf(command)[k])
  {
    hide Words, CStr;
    copy := new char[COPY_SIZE];
    Strcpy(copy, CopyOf(command));
    var scanner := new Scanner(copy);
    args := new Option<nat>[ARGS_MAX + 1];
    ghost var taken;
    i, taken := FillArgs(scanner, args, Words(CopyOf(command)));
    ghost var stored := args[..i];
    args[i] := None;
    assert args[..i] == stored;
  }

  // ----- What the vector means -----

  /** Joining the arguments with single spaces gives a command with the same vector. */
  lemma ArgvOfJoinedArgv(command: string)
    ensures ArgvOf(JoinWords(ArgvOf(command))) == ArgvOf(command)
  {
    var text := CopyOf(command);
    var argv := ArgvOf(command);
    WordsAreWords(text);
    JoinNotLonger(text, |argv|);
    assert argv == Words(text)[..|argv|];
    WordsOfJoin(argv);
  }

  lemma AddCharTakes(ws: seq<string>, begins: bool, c: char)
    requires begins || ws != []
    ensures First(AddChar(ws, begins, c), ARGS_MAX) == First(ws, ARGS_MAX) <==>
            c == ' ' || |ws| > ARGS_MAX || (begins && |ws| == ARGS_MAX)
  {
    if c != ' ' && !begins && |ws| <= ARGS_MAX {
      var last := ws[|ws| - 1];
      assert |last + [c]| != |last|;
      assert AddChar(ws, begins, c)[|ws| - 1] != last;
    }
  }

  /** A command of up to 1024 bytes is accepted, but only 1023 are copied.  The
      vector is that of the whole command exactly when the byte left out is a
      space or adds to no argument that is kept. */
  lemma LastByteLost(command: string)
    requires |command| <= 1024
    ensures ArgvOf(command) == First(Words(command), ARGS_MAX) <==>
            || |command| < 1024
            || command[1023] == ' '
            || |Words(command[..1023])| > ARGS_MAX
            || (command[1022] == ' ' && |Words(command[..1023])| == ARGS_MAX)
  {
    if |command| == 1024 {
      var front := command[..1023];
      assert command == front + [command[1023]];
      WordsSnoc(front, command[1023]);
      AddCharTakes(Words(front), StartsWord(front), command[1023]);
    }
  }

  /** A command of one word of 1024 letters: the child runs another program. */
  lemma LongWordCut(command: string)
    requires |command| == 1024 && forall i :: 0 <= i < 1024 ==> command[i] == 'a'
    ensures ArgvOf(command) == [command[..1023]] && Words(command) == [command]
    ensures ArgvOf(command) != First(Words(command), ARGS_MAX)
  {
    WordsOfWord(command);
    WordsOfWord(command[..1023]);
  }
}
