/** The server's process report: the output of `ps`, read in chunks into a bounded buffer. */
module PsReport {
  import opened CText
  import opened CBuffer
  import opened Options
  import opened ProcessText

  /** The most characters one `fgets` call reads: its buffer less the final NUL. */
  const CHUNK_MAX: nat := 1034

  const PS_FAILED: string := "Error: Failed to run ps command\n"

  /** How much of the stream one `fgets` call takes: through the next newline, if it fits. */
  function ChunkLen(stream: string): (n: nat)
    requires stream != ""
    ensures 0 < n <= |stream| && n <= 1034
    ensures n == 1034 || n == |stream| || stream[n - 1] == NEWLINE
  {
    var k := Span(stream, NotNewline);
    var line := if k < |stream| then k + 1 else k;
    SpanFacts(stream, NotNewline, 0);
    if line < CHUNK_MAX then line else CHUNK_MAX
  }

  /** The report built from `stream` after `out`, in a buffer of `size` bytes. */
  function Report(size: nat, out: string, stream: string): (r: string)
    requires size > 0
    ensures out <= r
    decreases |stream|
  {
    if stream == "" then out
    else
      var n := ChunkLen(stream);
      var path := CStr(stream[..n]);
      if |out| + |path| < size - 1 then Report(size, out + path, stream[n..]) else out
  }

  method Fgets(stream: string) returns (path: string, rest: string)
    requires stream != ""
    ensures path == stream[..ChunkLen(stream)] && rest == stream[ChunkLen(stream)..]
  {
    var n := 0;
    while n < CHUNK_MAX && n < |stream| && (n == 0 || stream[n - 1] != NEWLINE)
      invariant n <= |stream| && n <= CHUNK_MAX
      invariant forall i :: 0 <= i < n - 1 ==> stream[i] != NEWLINE
    {
      n := n + 1;
    }
    FgetsStops(stream, n);
    path, rest := stream[..n], stream[n..];
  }

  lemma FgetsStops(stream: string, n: nat)
    requires 0 < n <= |stream| && n <= CHUNK_MAX
    requires forall i :: 0 <= i < n - 1 ==> stream[i] != NEWLINE
    requires n == CHUNK_MAX || n == |stream| || stream[n - 1] == NEWLINE
    ensures n == ChunkLen(stream)
  {
    var k := Span(stream, NotNewline);
    SpanFacts(stream, NotNewline, 0);
    assert k >= n - 1;
    assert k > n - 1 ==> NotNewline(stream[n - 1]);
  }

  /** Fills `buffer` with the report; `ps` is what the command printed, if it could be run. */
  method ListProcesses(buffer: array<char>, ps: Option<string>)
    requires buffer.Length > 0
    modifies buffer
    ensures NUL in buffer[..]
    ensures CStr(buffer[..]) == if ps.None? then Snprintf(buffer.Length, PS_FAILED)
                                else Report(buffer.Length, "", ps.value)
  {
    var size := buffer.Length;
    if ps.None? {
      Strcpy(buffer, Snprintf(size, PS_FAILED));
      return;
    }
    Strcpy(buffer, "");
    var stream := ps.value;
    while stream != ""
      invariant NUL in buffer[..]
      invariant Report(size, CStr(buffer[..]), stream) == Report(size, "", ps.value)
      decreases |stream|
    {
      var path, rest := Fgets(stream);
      var n := Strlen(buffer);
      if n + |CStr(path)| < size - 1 {
        Strcat(buffer, CStr(path));
      } else {
        break;
      }
      stream := rest;
    }
  }

  // ----- What the report holds -----

  /** The report is cut out of the stream in whole chunks, and the next chunk would not have fitted. */
  lemma {:induction false} ReportIsPrefix(size: nat, out: string, stream: string)
    requires size > 0 && NUL !in stream
    ensures var r := Report(size, out, stream);
            && r <= out + stream
            && (|out| < size - 1 ==> |r| < size - 1)
            && (r == out + stream || |r| + ChunkLen((out + stream)[|r|..]) >= size - 1)
    decreases |stream|
  {
    hide ChunkLen, CStr;
    assert (out + stream)[|out|..] == stream;
    if stream == "" {
      assert out + stream == out;
    } else {
      var n := ChunkLen(stream);
      CStrIs(stream[..n], n);
      assert stream[..n][..n] == stream[..n];
      if |out| + n < size - 1 {
        ReportIsPrefix(size, out + stream[..n], stream[n..]);
        assert out + stream[..n] + stream[n..] == out + stream;
      }
    }
  }

  /** Whatever the output holds, the report is a C string. */
  lemma {:induction false} ReportIsCString(size: nat, out: string, stream: string)
    requires size > 0 && NUL !in out
    ensures NUL !in Report(size, out, stream)
    decreases |stream|
  {
    if stream != "" {
      var n := ChunkLen(stream);
      ReportIsCString(size, out + CStr(stream[..n]), stream[n..]);
    }
  }

  /** Every line of the text, its newline included, fits one `fgets` call. */
  predicate LinesFit(text: string)
    decreases |text|
  {
    var k := Span(text, NotNewline);
    if k == |text| then k <= 1034 else k + 1 <= 1034 && LinesFit(text[k + 1..])
  }

  predicate WholeLines(part: string, text: string) {
    part <= text && (part == text || EndsLine(part))
  }

  /** With lines that fit, every chunk is one line. */
  lemma ChunkIsLine(stream: string)
    requires stream != "" && LinesFit(stream)
    ensures var n := ChunkLen(stream);
            n == |stream| || (stream[n - 1] == NEWLINE && LinesFit(stream[n..]))
  {
    SpanFacts(stream, NotNewline, 0);
  }

  lemma {:induction false} ReportEndsLine(size: nat, out: string, stream: string)
    requires size > 0 && NUL !in stream && LinesFit(stream) && EndsLine(out)
    ensures WholeLines(Report(size, out, stream), out + stream)
    decreases |stream|
  {
    ReportIsPrefix(size, out, stream);
    if stream != "" {
      var n := ChunkLen(stream);
      var chunk, rest := stream[..n], stream[n..];
      CStrIs(chunk, n);
      assert chunk[..n] == chunk;
      ChunkIsLine(stream);
      if |out| + n < size - 1 {
        assert stream == chunk + rest;
        AppendAssoc(out, chunk, rest);
        if rest == "" {
          assert chunk == stream;
        } else {
          ReportEndsLine(size, out + chunk, rest);
        }
      }
    }
  }

  /** A whole-line prefix that goes past `r` holds the line after `r` as well. */
  lemma NextWholeLine(text: string, r: nat, part: string)
    requires r < |part| && WholeLines(part, text)
    ensures |part| >= r + ChunkLen(text[r..])
  {
    var rest := text[r..];
    SpanFacts(rest, NotNewline, 0);
    var k := Span(rest, NotNewline);
    var last := |part| - 1 - r;
    assert last < k ==> NotNewline(rest[last]);
  }

  /** The report is the longest prefix of whole lines that leaves two bytes of the buffer free. */
  lemma LongestWholeLines(size: nat, ps: string)
    requires size >= 2 && NUL !in ps && LinesFit(ps)
    ensures var r := Report(size, "", ps);
            && WholeLines(r, ps) && |r| <= size - 2
            && forall part :: WholeLines(part, ps) && |part| <= size - 2 ==> |part| <= |r|
  {
    var r := Report(size, "", ps);
    assert "" + ps == ps;
    ReportIsPrefix(size, "", ps);
    ReportEndsLine(size, "", ps);
    forall part | WholeLines(part, ps) && |part| <= size - 2
      ensures |part| <= |r|
    {
      if |r| < |part| {
        NextWholeLine(ps, |r|, part);
      }
    }
  }

  /** Server truncation followed by client parsing: with lines that fit, the entries
      are a prefix of those of the full output. */
  lemma ReportThenParse(size: nat, ps: string)
    requires size >= 2 && NUL !in ps && LinesFit(ps)
    ensures ParseText(Report(size, "", ps)) <= ParseText(ps)
  {
    hide ParseText, Report, LinesFit;
    LongestWholeLines(size, ps);
    var r := Report(size, "", ps);
    if r != ps {
      assert ps == r + ps[|r|..];
      CutAtLine(r, ps[|r|..]);
    }
  }

  /** Whatever the line lengths, and wherever the transport cuts the report, at
      most the last entry received differs from the full output. */
  lemma ReceivedThenParse(size: nat, ps: string, received: string)
    requires size > 0 && NUL !in ps && received <= Report(size, "", ps)
    ensures CutEntries(ParseText(received), ParseText(ps))
  {
    ReportIsPrefix(size, "", ps);
    assert "" + ps == ps;
    Truncation(ps, received);
  }
}
