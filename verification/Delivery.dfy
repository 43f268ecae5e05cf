/** A client's messages and the chunks in which the transport delivers them. */
module Delivery {
  import opened CText
  import opened Options
  import opened ProcessText
  import opened Requests
  import opened Server
  import opened Tokens

  function Chunks(xs: seq<Exchange>): (cs: seq<string>)
    ensures |cs| == |xs| && forall i :: 0 <= i < |cs| ==> cs[i] == xs[i].chunk
  {
    if xs == [] then [] else [xs[0].chunk] + Chunks(xs[1..])
  }

  /** The bodies of the messages: not empty, and each in one line. */
  predicate AreMessages(ls: seq<string>) {
    forall i :: 0 <= i < |ls| ==> ls[i] != "" && Unbroken(ls[i])
  }

  /** Each chunk is read as the message of the same number. */
  predicate ReadsEach(cs: seq<string>, ls: seq<string>) {
    |cs| == |ls| && forall i :: 0 <= i < |cs| ==> CommandLine(cs[i]) == ls[i]
  }

  /** The characters of a text that are not newlines. */
  function BodyLength(s: string): (n: int) {
    |s| - NewlineCount(s)
  }

  lemma {:induction false} NewlinesAtMost(s: string)
    ensures NewlineCount(s) <= |s|
    ensures NewlineCount(s) == |s| <==> forall i :: 0 <= i < |s| ==> s[i] == NEWLINE
  {
    if s != "" {
      var front, last := s[..|s| - 1], s[|s| - 1];
      NewlinesAtMost(front);
      assert s == front + [last];
    }
  }

  lemma BodyAppend(x: string, y: string)
    ensures BodyLength(x + y) == BodyLength(x) + BodyLength(y) && BodyLength(y) >= 0
  {
    NewlineCountAppend(x, y);
    NewlinesAtMost(y);
  }

  lemma BodyOfMessage(line: string)
    requires Unbroken(line)
    ensures BodyLength(line) == |line| && BodyLength(line + [NEWLINE]) == |line|
  {
    NewlineCountOfLine(line);
    NewlineCountAppend(line, [NEWLINE]);
    assert [NEWLINE][..0] == "";
  }

  /** What a chunk holds besides its command line. */
  lemma BehindLine(chunk: string) returns (line: string, behind: string)
    ensures line == CommandLine(chunk) && Unbroken(line)
    ensures chunk == line + behind && BodyLength(chunk) == |line| + BodyLength(behind) && BodyLength(behind) >= 0
    ensures behind == "" || !InLine(behind[0])
  {
    CommandLineUnbroken(chunk);
    SpanFacts(chunk, InLine, 0);
    line := CommandLine(chunk);
    behind := chunk[|line|..];
    BodyAppend(line, behind);
    BodyOfMessage(line);
  }

  /** There is a chunk for each message, with a command line at least as long. */
  predicate Covers(cs: seq<string>, ls: seq<string>) {
    |cs| == |ls| && forall i :: 0 <= i < |cs| ==> |CommandLine(cs[i])| >= |ls[i]|
  }

  /** With as many chunks as messages there is nothing to spare: each chunk has just its
      command line and newlines. */
  lemma {:induction false} NothingToSpare(cs: seq<string>, ls: seq<string>)
    requires AreMessages(ls) && Covers(cs, ls)
    ensures BodyLength(Concat(cs)) >= BodyLength(Framed(ls))
    ensures BodyLength(Concat(cs)) == BodyLength(Framed(ls)) ==>
              forall i :: 0 <= i < |cs| ==> |CommandLine(cs[i])| == |ls[i]| == BodyLength(cs[i])
    decreases |ls|
  {
    hide BodyLength, CommandLine;
    if ls != [] {
      var line, behind := BehindLine(cs[0]);
      BodyOfMessage(ls[0]);
      BodyAppend(ls[0] + [NEWLINE], Framed(ls[1..]));
      BodyAppend(cs[0], Concat(cs[1..]));
      NothingToSpare(cs[1..], ls[1..]);
    }
  }

  lemma StartsInLine(cs: seq<string>, ls: seq<string>)
    requires AreMessages(ls) && ReadsEach(cs, ls)
    ensures Framed(ls) != "" ==> InLine(Framed(ls)[0])
    ensures Concat(cs) != "" ==> InLine(Concat(cs)[0])
  {
    if ls != [] {
      var line, behind := BehindLine(cs[0]);
      assert cs[0][0] == line[0] == ls[0][0];
    }
  }

  /** One newline ends the first message and no more can follow. */
  lemma OneNewline(line: string, behind: string, rest: string, more: string)
    requires forall i :: 0 <= i < |behind| ==> behind[i] == NEWLINE
    requires line + behind + rest == line + [NEWLINE] + more
    requires rest != "" ==> InLine(rest[0])
    requires more != "" ==> InLine(more[0])
    ensures behind == [NEWLINE] && rest == more
  {
    var text, n := line + behind + rest, |line|;
    assert text[n..] == behind + rest && text[n..] == [NEWLINE] + more;
    assert text[n] == NEWLINE && text[n + 1..] == more;
    if behind != "" {
      assert behind + rest == [behind[0]] + (behind[1..] + rest);
      assert more == behind[1..] + rest;
    }
  }

  lemma {:induction false} FromTheFront(cs: seq<string>, ls: seq<string>)
    requires AreMessages(ls) && ReadsEach(cs, ls) && Concat(cs) == Framed(ls)
    requires forall i :: 0 <= i < |cs| ==> BodyLength(cs[i]) == |ls[i]|
    ensures forall i :: 0 <= i < |cs| ==> cs[i] == ls[i] + [NEWLINE]
    decreases |ls|
  {
    if ls != [] {
      hide CommandLine;
      var line, behind := BehindLine(cs[0]);
      NewlinesAtMost(behind);
      StartsInLine(cs[1..], ls[1..]);
      OneNewline(line, behind, Concat(cs[1..]), Framed(ls[1..]));
      FromTheFront(cs[1..], ls[1..]);
    }
  }

  predicate OneEach(cs: seq<string>, ls: seq<string>) {
    |cs| == |ls| && forall i :: 0 <= i < |cs| ==> cs[i] == ls[i] + [NEWLINE]
  }

  /** However the messages are delivered, the server reads each of them, and them only, if and
      only if the chunks are the messages. */
  lemma DeliveredExact(cs: seq<string>, ls: seq<string>)
    requires AreMessages(ls) && Concat(cs) == Framed(ls)
    ensures ReadsEach(cs, ls) <==> OneEach(cs, ls)
  {
    hide CommandLine, BodyLength;
    if ReadsEach(cs, ls) {
      NothingToSpare(cs, ls);
      FromTheFront(cs, ls);
    }
    if OneEach(cs, ls) {
      forall i | 0 <= i < |cs| ensures CommandLine(cs[i]) == ls[i] {
        CommandLineOf(ls[i], [NEWLINE]);
      }
    }
  }

  // ----- The requests that are made of them -----

  /** A message without blanks at either end. */
  predicate IsTidy(line: string) {
    line != "" && line[0] != ' ' && line[|line| - 1] != ' '
  }

  /** Each chunk is split into the command word and argument of the message of the same number. */
  predicate MakesEach(cs: seq<string>, ls: seq<string>) {
    |cs| == |ls| && forall i :: 0 <= i < |cs| ==> SplitRequest(cs[i]) == SplitLine(ls[i])
  }

  lemma TidySplit(line: string)
    requires IsTidy(line)
    ensures var r := SplitLine(line);
            r.cmd.Some? && line == r.cmd.value + (if r.arg.Some? then " " + r.arg.value else "")
  {
    SpanIs(line, OneOf(" "), 0, 0);
    var e := SpanFrom(line, NoneOf(" "), 0);
    SpanFacts(line, NoneOf(" "), 0);
    if e < |line| {
      WholeRest(line[e + 1..]);
      assert line == line[..e] + " " + line[e + 1..];
    }
  }

  /** Of the texts that make the same request a tidy one is the shortest. */
  lemma TidyShortest(text: string, line: string)
    requires IsTidy(line) && SplitLine(text) == SplitLine(line)
    ensures |text| >= |line| && (|text| == |line| ==> text == line)
  {
    TidySplit(line);
    var a := SpanFrom(text, OneOf(" "), 0);
    var e := SpanFrom(text, NoneOf(" "), a);
    SpanFacts(text, NoneOf(" "), a);
    WholeRest(NextToken(text, " ").1);
  }

  /** However tidy messages are delivered, the server gets the request of each, and those
      only, if and only if the chunks are the messages. */
  lemma RequestsExact(cs: seq<string>, ls: seq<string>)
    requires AreMessages(ls) && Concat(cs) == Framed(ls)
    requires forall i :: 0 <= i < |ls| ==> IsTidy(ls[i])
    ensures MakesEach(cs, ls) <==> OneEach(cs, ls)
  {
    hide CommandLine, BodyLength, SplitLine, IsTidy;
    DeliveredExact(cs, ls);
    if MakesEach(cs, ls) {
      forall i | 0 <= i < |cs|
        ensures |CommandLine(cs[i])| >= |ls[i]|
        ensures |CommandLine(cs[i])| == |ls[i]| ==> CommandLine(cs[i]) == ls[i]
      {
        TidyShortest(CommandLine(cs[i]), ls[i]);
      }
      NothingToSpare(cs, ls);
    }
  }

  lemma BlankBefore(word: string)
    requires IsTidy(word) && IsWord(word)
    ensures SplitLine(" " + word) == SplitLine(word) == Request(Some(word), None)
  {
    var text := " " + word;
    SpanIs(text, OneOf(" "), 0, 1);
    SpanIs(text, NoneOf(" "), 1, |text|);
    assert text[1..|text|] == word;
    FirstWord(word, "");
    assert word + "" == word;
    WholeRest("");
  }

  /** Blanks can move from one chunk to another: these are not the messages, but they
      make the same requests. */
  lemma BlanksMoved(word: string)
    requires IsTidy(word) && IsWord(word) && Unbroken(word)
    ensures var ls, cs := [word, " " + word], [word + "\n ", word + "\n"];
            Concat(cs) == Framed(ls) && MakesEach(cs, ls) && !OneEach(cs, ls)
  {
    hide CommandLine, SplitLine, Concat, Framed;
    var ls, cs := [word, " " + word], [word + "\n ", word + "\n"];
    CommandLineOf(word, "\n ");
    CommandLineOf(word, "\n");
    BlankBefore(word);
    FramedTwo(ls[0], ls[1]);
    ConcatTwo(cs[0], cs[1]);
    assert cs[0] + cs[1] == word + [NEWLINE] + (" " + word + [NEWLINE]);
    assert MakesEach(cs, ls);
    assert |cs[0]| == |ls[0]| + 2;
    assert cs[0] != ls[0] + [NEWLINE];
  }

  /** When every chunk is one message, each message gets its own answer, up to the one that
      ends the session. */
  lemma EachAnswered(xs: seq<Exchange>, ls: seq<string>)
    requires OneEach(Chunks(xs), ls)
    ensures var out := Session(xs);
            && (forall i :: 0 <= i < |out| ==> out[i] == Respond(ls[i] + [NEWLINE], xs[i].os))
            && (|out| == |ls| || (out != [] && out[|out| - 1].reply == Goodbye))
  {
    hide Respond;
    SessionTrace(xs);
  }
}
