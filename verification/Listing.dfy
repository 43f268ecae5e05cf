/** What the two programs do together to show processes: from `ps` to the client's list. */
module Listing {
  import opened CText
  import opened Options
  import opened ProcessParts
  import opened ProcessText
  import opened PsReport
  import opened Replies
  import opened Requests
  import opened Server
  import opened Tokens
  import opened Verbs
  import CM = ClientModel
  import CR = ClientRuns

  /** The command LIST is sent as the message that the timers send. */
  lemma ListFraming()
    ensures CM.Message("LIST") == Some(CM.LIST_MESSAGE)
  {
    CR.FramingLimits("LIST");
    assert "LIST"[0] == 'L' && "RUN "[0] == 'R';
    assert "LIST" + [NEWLINE] == CM.LIST_MESSAGE;
  }

  /** The server's report of an output of `ps`. */
  function ReportOf(ps: string): string {
    PsReport.Report(BUFFER_SIZE, "", ps)
  }

  /** The server answers it with its bounded report. */
  lemma RespondList(os: Os, ps: string)
    requires os.ps == Some(ps)
    ensures Respond(CM.LIST_MESSAGE, os) == Answer(Server.Report(ReportOf(ps)))
  {
    hide PsReport.Report, CommandLine, VerbOf;
    var chunk := CM.LIST_MESSAGE;
    assert Unbroken("LIST");
    CommandLineOf("LIST", [NEWLINE]);
    assert "LIST" + [NEWLINE] == chunk;
    FirstWord("LIST", "");
    assert "LIST" + "" == "LIST";
    VerbExact("LIST");
    assert Upper("LIST") == "LIST";
  }

  /** The state that a run on a connection has reached; `got` is the answer to the dialog's LIST. */
  function Reached(lines: nat, got: CM.Recv, now: int, es: seq<CM.Event>): CM.Client {
    CM.Run(CM.Start(lines, got, now), es)
  }

  /** However a reply arrives that begins at `at` in all that is read on a connection, whoever
      reads its parts: the text shown is the part of it that the last shown read brought. */
  lemma ReplyArrives(lines: nat, got: CM.Recv, now: int, es: seq<CM.Event>, at: nat, reply: string)
    requires var rs := CM.SessionReads(lines, got, now, es);
             && CM.Shown(rs).Some? && at <= CM.ShownAt(rs) && at <= |CM.Stream(rs)|
             && CM.Stream(rs)[at..] <= reply
    ensures var rs := CM.SessionReads(lines, got, now, es);
            var a := CM.ShownAt(rs) - at;
            var b := a + |CM.Shown(rs).value|;
            b <= |reply| && Reached(lines, got, now, es).raw == Some(reply[a..b])
  {
    hide CM.SessionReads, CM.Stream, CM.Shown, CM.ShownAt, CM.Run;
    var rs := CM.SessionReads(lines, got, now, es);
    CM.ListIsLastShown(lines, got, now, es);
    CM.ShownIsSlice(rs);
    var stream, a := CM.Stream(rs), CM.ShownAt(rs);
    var b := a + |CM.Shown(rs).value|;
    assert stream[at..][a - at..b - at] == stream[a..b];
    assert stream[at..][a - at..b - at] == reply[a - at..b - at];
  }

  /** From `ps` to the client's list, in every reachable state that shows a part of the reply,
      received by the connection dialog, for a command or while no key was pressed.  The
      list holds a run of the entries of the full output, those after the line that the part
      begins in; only the last of them can be cut, and none is if the reply ends there. */
  lemma ListPipeline(lines: nat, got: CM.Recv, now: int, es: seq<CM.Event>, ps: string, os: Os, a: nat, b: nat)
    requires os.ps == Some(ps) && NUL !in ps && a <= b <= |ReportOf(ps)|
    requires Reached(lines, got, now, es).raw == Some(ReportOf(ps)[a..b])
    ensures Respond(CM.LIST_MESSAGE, os).reply == Server.Report(ReportOf(ps)) && ReportOf(ps) <= ps
    ensures var r, list := ReportOf(ps), Reached(lines, got, now, es).list;
            var skipped := ParseText(ps[..LineEndFrom(ps, a)]);
            && |skipped| <= |ParseText(ps)| && CutEntries(list, ParseText(ps)[|skipped|..])
            && (b == |r| ==> ParseText(r) == ParseText(r[..LineEndFrom(r, a)]) + list)
  {
    hide ParseText, PsReport.Report, CM.Run, Respond, CutEntries, LineEndFrom, CM.SessionReads;
    var r := ReportOf(ps);
    RespondList(os, ps);
    ReportIsPrefix(BUFFER_SIZE, "", ps);
    assert "" + ps == ps;
    CM.CacheAgreement(lines, got, now, es);
    PartOfPrefix(r, ps, a, b);
    PartEntries(ps, a, b);
    if b == |r| {
      LastPart(r, a);
      assert r[a..b] == r[a..];
    }
  }

  lemma PartOfPrefix(r: string, ps: string, a: nat, b: nat)
    requires r <= ps && a <= b <= |r| && NUL !in ps
    ensures CStr(r[a..b]) == r[a..b] == ps[a..b]
  {
    var part := r[a..b];
    assert part == ps[a..b];
    assert part[..|part|] == part;
    CStrIs(part, |part|);
  }

  /** What LIST promises, exactly: when every line of the output has an entry and fits one
      read, a reply whose end is shown is listed in full if and only if the output fits the
      server's buffer and the part shown begins in the heading. */
  lemma ListedInFull(lines: nat, got: CM.Recv, now: int, es: seq<CM.Event>, ps: string, os: Os, a: nat)
    requires os.ps == Some(ps) && NUL !in ps && EveryLineListed(ps) && LinesFit(ps) && a < |ReportOf(ps)|
    requires Reached(lines, got, now, es).raw == Some(ReportOf(ps)[a..])
    ensures Respond(CM.LIST_MESSAGE, os).reply == Server.Report(ReportOf(ps)) && ReportOf(ps) <= ps
    ensures Reached(lines, got, now, es).list == ParseText(ps) <==> |ps| <= BUFFER_SIZE - 2 && IsLine(ps[..a])
  {
    hide ParseText, PsReport.Report, LinesFit, Reached, Respond, CutEntries, LineEndFrom, EveryLineListed, IsLine;
    var r, list := ReportOf(ps), Reached(lines, got, now, es).list;
    assert r[a..] == r[a..|r|];
    ListPipeline(lines, got, now, es, ps, os, a, |r|);
    LongestWholeLines(BUFFER_SIZE, ps);
    LastPart(r, a);
    if |ps| <= BUFFER_SIZE - 2 {
      assert WholeLines(ps, ps);
      assert r == ps;
      CompleteFromHeading(ps, a);
      assert list == ParseText(ps[a..]) by {
        SameTail(ParseText(r[..LineEndFrom(r, a)]), list, ParseText(ps[a..]));
      }
    } else {
      CutOffLosesEntries(r, ps);
    }
  }

  lemma SameTail<T>(front: seq<T>, x: seq<T>, y: seq<T>)
    requires front + x == front + y
    ensures x == y
  {
    assert x == (front + x)[|front|..];
    assert y == (front + y)[|front|..];
  }

  lemma CutOffLosesEntries(r: string, ps: string)
    requires WholeLines(r, ps) && r != "" && r != ps && EveryLineListed(ps)
    ensures |ParseText(r)| < |ParseText(ps)|
  {
    hide ParseText, CountLines;
    var tail := ps[|r|..];
    assert ps == r + tail;
    ParseAppend(r, tail);
    CountLinesAppend(r, tail);
    EntriesBelowLines(r);
    EntriesBelowLines(tail);
  }

  /** In every reachable state that shows a part of the server's answer to another command
      than a synonym of LIST, the list is empty. */
  lemma OtherAnswersEmptyList(lines: nat, got: CM.Recv, now: int, es: seq<CM.Event>, chunk: string, os: Os,
                              error: LineText, a: nat, b: nat)
    requires SplitRequest(chunk).cmd.Some? ==> !IsListWord(Upper(SplitRequest(chunk).cmd.value))
    requires a <= b <= |AnswerText(chunk, os, error)|
    requires Reached(lines, got, now, es).raw == Some(AnswerText(chunk, os, error)[a..b])
    ensures Reached(lines, got, now, es).list == []
  {
    hide ParseText, SplitRequest, CM.Run, Respond, ReplyText, QuotesLines, IsListWord;
    var text := AnswerText(chunk, os, error);
    CM.CacheAgreement(lines, got, now, es);
    ReportExact(chunk, os);
    RespondQuotesLines(chunk, os);
    var n := |CStr(text[a..b])|;
    assert CStr(text[a..b]) == text[a..b][..n] == text[a..a + n];
    ReplyListsNothing(Respond(chunk, os).reply, error, a, a + n);
  }

  /** A reply in two parts, the first read by the connection dialog and the second while no key
      is pressed: the first process is not listed. */
  lemma SecondPartReplaces(lines: nat, now: int, first: CM.Recv, second: CM.Event)
    requires second.ch == CM.NO_KEY
    requires first == CM.Data(Framed(["H"])) && second.got == CM.Data(Framed(["1 a", "2 b"]))
    ensures Reached(lines, first, now, [second]).list == [Entry(2, "b")]
    ensures ParseText(first.bytes + second.got.bytes) == [Entry(1, "a"), Entry(2, "b")]
  {
    hide ParseText, CM.Run, Framed, CountLines;
    var shown := ["H", "1 a", "2 b"];
    EntryLost();
    assert shown[..1] == ["H"] && shown[1..] == ["1 a", "2 b"];
    CM.RunOne(CM.Start(lines, first, now), second);
    CM.StepShows(CM.Start(lines, first, now), second);
    CM.CacheAgreement(lines, first, now, [second]);
    var text := second.got.bytes;
    FramedTwo("1 a", "2 b");
    assert text[..|text|] == text && NUL !in text;
    CStrIs(text, |text|);
  }
}
