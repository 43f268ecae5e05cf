/** Reading one received chunk: the server's line cut and its two `strtok` calls. */
module Requests {
  import opened CText
  import opened CBuffer
  import opened Options
  import opened Tokens
  import opened Verbs

  datatype Request = Request(cmd: Option<string>, arg: Option<string>)

  predicate InLine(c: char) {
    c != NUL && c != '\r' && c != '\n'
  }

  /** The bytes of a chunk before its first CR, LF or NUL. */
  function CommandLine(chunk: string): string {
    chunk[..Span(chunk, InLine)]
  }

  /** The command word and the argument text of a command line. */
  function SplitLine(line: string): Request {
    var (cmd, rest) := NextToken(line, " ");
    Request(cmd, NextToken(rest, "").0)
  }

  function SplitRequest(chunk: string): Request {
    SplitLine(CommandLine(chunk))
  }

  method ReadString(buf: array<char>, at: nat, ghost t: string) returns (s: string)
    requires TokenAt(buf[..], at, t) && NUL !in t
    ensures s == t
  {
    s := "";
    while buf[at + |s|] != NUL
      invariant |s| <= |t| && s == t[..|s|]
      invariant |s| < |t| ==> buf[at + |s|] == t[|s|] && t[|s|] in t
      decreases |t| - |s|
    {
      assert buf[at + |s|] == buf[..][at..at + |t|][|s|];
      s := s + [buf[at + |s|]];
    }
  }

  /** Splits the `n` bytes received into `buffer`, in place. */
  method Split(buffer: array<char>, n: nat) returns (r: Request)
    requires n < buffer.Length
    modifies buffer
    ensures r == SplitRequest(old(buffer[..n]))
  {
    ghost var chunk := buffer[..n];
    buffer[n] := NUL;
    var k := 0;
    while buffer[k] != NUL && buffer[k] != '\r' && buffer[k] != '\n'
      invariant k <= n && forall i :: 0 <= i < k ==> InLine(buffer[i])
      decreases n - k
    {
      k := k + 1;
    }
    assert buffer[..n] == chunk;
    SpanIs(chunk, InLine, 0, k);
    buffer[k] := NUL;
    ghost var line := CommandLine(chunk);
    assert buffer[..][..k] == line;
    assert buffer[..][k] == NUL;
    CStrIs(buffer[..], k);
    r := SplitBuffer(buffer, line);
  }

  method SplitBuffer(buffer: array<char>, ghost line: string) returns (r: Request)
    requires NUL in buffer[..] && CStr(buffer[..]) == line
    modifies buffer
    ensures r == SplitLine(line)
  {
    hide NextToken;
    var scanner := new Scanner(buffer);
    ghost var first := NextToken(line, " ");
    var cmd, cut := scanner.Next(" ");
    ghost var was := buffer[..];
    ghost var second := NextToken(first.1, "");
    var arg, cut' := scanner.Next("");
    TokenFree(line, " ");
    TokenFree(first.1, "");
    var c, a: Option<string> := None, None;
    if cmd.Some? {
      TokenKept(was, cmd.value, first.0.value, cut');
      var s := ReadString(buffer, cmd.value, first.0.value);
      c := Some(s);
    }
    if arg.Some? {
      var s := ReadString(buffer, arg.value, second.0.value);
      a := Some(s);
    }
    r := Request(c, a);
  }

  lemma TokenFree(rest: string, delims: string)
    requires NUL !in rest
    ensures NextToken(rest, delims).0.Some? ==> NUL !in NextToken(rest, delims).0.value
    ensures NUL !in NextToken(rest, delims).1
  {
  }

  // ----- Framing -----

  predicate Unbroken(s: string) {
    forall i :: 0 <= i < |s| ==> InLine(s[i])
  }

  lemma CommandLineOf(line: string, more: string)
    requires Unbroken(line)
    requires more == "" || !InLine(more[0])
    ensures CommandLine(line + more) == line
  {
    SpanIs(line + more, InLine, 0, |line|);
  }

  /** With no delimiters, `strtok` hands out all that is left. */
  lemma WholeRest(rest: string)
    ensures NextToken(rest, "") == (if rest == "" then None else Some(rest), "")
  {
    if rest != "" {
      SpanIs(rest, OneOf(""), 0, 0);
      SpanIs(rest, NoneOf(""), 0, |rest|);
      assert rest[0..|rest|] == rest;
    } else {
      SpanIs(rest, OneOf(""), 0, 0);
    }
  }

  /** The command word ends at the first space, and one space is dropped. */
  lemma FirstWord(verb: string, rest: string)
    requires IsWord(verb)
    requires rest == "" || rest[0] == ' '
    ensures NextToken(verb + rest, " ") == (Some(verb), if rest == "" then "" else rest[1..])
  {
    var line := verb + rest;
    assert line[0] == verb[0] && verb[0] != ' ';
    SpanIs(line, OneOf(" "), 0, 0);
    SpanIs(line, NoneOf(" "), 0, |verb|);
    assert line[0..|verb|] == verb;
    assert rest != "" ==> line[|verb| + 1..] == rest[1..];
  }

  /** A verb, a space and any argument text are split back into the two. */
  lemma SplitFramed(verb: string, arg: string)
    requires IsWord(verb)
    ensures SplitLine(verb + " " + arg) == Request(Some(verb), if arg == "" then None else Some(arg))
  {
    assert verb + " " + arg == verb + (" " + arg);
    FirstWord(verb, " " + arg);
    assert (" " + arg)[1..] == arg;
    WholeRest(arg);
  }

  /** What the split returns is always of this shape. */
  lemma SplitShape(line: string)
    ensures var r := SplitLine(line);
            && (r.cmd.Some? ==> IsWord(r.cmd.value) && forall c :: c in r.cmd.value ==> c in line)
            && (r.arg.Some? ==> r.arg.value != "" && forall c :: c in r.arg.value ==> c in line)
            && (r.cmd.None? ==> r.arg.None?)
  {
    NextWord(line);
    WholeRest(NextToken(line, " ").1);
  }

  /** Framing round trip: the server gets back exactly the verb and the argument that
      were framed, if and only if the verb is a word and neither holds a CR, LF or NUL. */
  lemma FramingRoundTrip(verb: string, arg: string)
    ensures SplitRequest(verb + " " + arg + [NEWLINE]) == Request(Some(verb), Some(arg)) <==>
            IsWord(verb) && Unbroken(verb) && arg != "" && Unbroken(arg)
  {
    var line := verb + " " + arg;
    var chunk := line + [NEWLINE];
    var r := SplitRequest(chunk);
    if r == Request(Some(verb), Some(arg)) {
      SplitShape(CommandLine(chunk));
      CommandLineUnbroken(chunk);
      forall i | 0 <= i < |verb| ensures InLine(verb[i]) {
        assert verb[i] in verb;
      }
      forall i | 0 <= i < |arg| ensures InLine(arg[i]) {
        assert arg[i] in arg;
      }
    }
    if IsWord(verb) && Unbroken(verb) && arg != "" && Unbroken(arg) {
      assert Unbroken(line);
      CommandLineOf(line, [NEWLINE]);
      SplitFramed(verb, arg);
    }
  }

  lemma CommandLineUnbroken(chunk: string)
    ensures Unbroken(CommandLine(chunk)) && forall c :: c in CommandLine(chunk) ==> InLine(c)
  {
    SpanFacts(chunk, InLine, 0);
  }

  /** The verb branch and the argument that a chunk reaches. */
  function Dispatched(chunk: string): (Verb, Option<string>) {
    var r := SplitRequest(chunk);
    (if r.cmd.None? then Unknown else VerbOf(r.cmd.value), r.arg)
  }

  /** The part of a chunk's command line that follows a framed verb. */
  lemma CommandLineFramed(verb: string, x: string)
    requires Unbroken(verb)
    ensures CommandLine(verb + " " + x) == verb + " " + CommandLine(x)
  {
    var k := Span(x, InLine);
    SpanFacts(x, InLine, 0);
    var chunk := verb + " " + x;
    SpanIs(chunk, InLine, 0, |verb| + 1 + k);
    assert chunk[..|verb| + 1 + k] == verb + " " + x[..k];
  }

  /** Any framed verb reaches its own branch with the text up to the first line break. */
  lemma DispatchFramed(verb: string, x: string)
    requires IsWord(verb) && Unbroken(verb)
    ensures Dispatched(verb + " " + x) ==
            (VerbOf(verb), if CommandLine(x) == "" then None else Some(CommandLine(x)))
  {
    CommandLineFramed(verb, x);
    SplitFramed(verb, CommandLine(x));
  }

  /** Rewriting "RUN x" to "START x" changes neither the branch the server takes nor the
      argument it gets, whatever `x` is, the empty text included. */
  lemma AliasPreserved(x: string)
    ensures Dispatched("RUN " + x) == Dispatched("START " + x)
    ensures Dispatched("RUN " + x).0 == Start
  {
    hide Dispatched, VerbOf;
    DispatchFramed("RUN", x);
    DispatchFramed("START", x);
    RunMeansStart();
    assert "RUN" + " " == "RUN " && "START" + " " == "START ";
  }

  lemma RunMeansStart()
    ensures VerbOf("RUN") == VerbOf("START") == Start
  {
    VerbExact("RUN");
    VerbExact("START");
    assert Upper("RUN") == "RUN" && Upper("START") == "START";
  }

  /** The command line ends before the first NUL, CR or LF, and only there. */
  lemma CommandLineExact(chunk: string)
    ensures var line := CommandLine(chunk);
            && line <= chunk
            && (forall i :: 0 <= i < |line| ==> line[i] != '\0' && line[i] != '\r' && line[i] != '\n')
            && (|line| < |chunk| ==>
                  chunk[|line|] == '\0' || chunk[|line|] == '\r' || chunk[|line|] == '\n')
  {
    SpanFacts(chunk, InLine, 0);
  }

  /** A message may end with LF or with CR and LF. */
  lemma LineEndings(line: string)
    requires forall i :: 0 <= i < |line| ==> line[i] != '\0' && line[i] != '\r' && line[i] != '\n'
    ensures SplitRequest(line + "\n") == SplitRequest(line + "\r\n") == SplitLine(line)
  {
    CommandLineOf(line, "\n");
    CommandLineOf(line, "\r\n");
  }

  /** Only the bytes before the first CR, LF or NUL matter; more lines in the chunk are ignored. */
  lemma LaterLinesIgnored(line: string, stop: char, more: string)
    requires Unbroken(line) && !InLine(stop)
    ensures SplitRequest(line + [stop] + more) == SplitLine(line)
  {
    assert line + [stop] + more == line + ([stop] + more);
    CommandLineOf(line, [stop] + more);
  }

  /** There is no command word exactly when the command line is all spaces. */
  lemma NoCommandWord(chunk: string)
    ensures SplitRequest(chunk).cmd.None? <==>
            forall i :: 0 <= i < |CommandLine(chunk)| ==> CommandLine(chunk)[i] == ' '
  {
    var line := CommandLine(chunk);
    var sp := OneOf(" ");
    SpanFacts(line, sp, 0);
    var a := SpanFrom(line, sp, 0);
    if a < |line| {
      assert !sp(line[a]);
    } else {
      assert forall i :: 0 <= i < |line| ==> sp(line[i]) && line[i] == ' ';
    }
  }
}
