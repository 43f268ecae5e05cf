/** What the client lists when a reply arrives in parts: the text of the last part alone. */
module ProcessParts {
  import opened CText
  import opened Decimal
  import opened ProcessText

  /** Where the line around position `a` ends, its newline included. */
  function LineEndFrom(text: string, a: nat): (k: nat)
    requires a <= |text|
    ensures a <= k <= |text|
  {
    var k := a + Span(text[a..], NotNewline);
    if k < |text| then k + 1 else k
  }

  /** Text that ends its first line can be followed by more text without changing an entry,
      and then all the lines that follow count. */
  lemma ParseAppend(a: string, b: string)
    requires a != "" && EndsLine(a)
    ensures ParseText(a + b) == ParseText(a) + AllEntries(b)
  {
    var x, rest := BreakLine(a);
    EntriesOfText(x, rest);
    EntriesOfText(x, rest + b);
    AllEntriesAppend(rest, b);
    AppendAssoc(x + [NEWLINE], rest, b);
  }

  /** A part without a newline lists nothing. */
  lemma PartInLine(text: string, a: nat)
    requires a <= |text| && IsLine(text[a..])
    ensures LineEndFrom(text, a) == |text| && text[..LineEndFrom(text, a)] == text
    ensures ParseText(text[a..]) == []
  {
    hide ParseText;
    SpanIs(text[a..], NotNewline, 0, |text[a..]|);
    EntriesOfLine(text[a..]);
  }

  /** Of any other part the line that it begins in is dropped, as if it were a heading. */
  lemma PartAtLine(text: string, a: nat) returns (x: string, k: nat)
    requires a <= |text| && !IsLine(text[a..])
    ensures k == LineEndFrom(text, a) && k == a + |x| + 1
    ensures IsLine(x) && text[a..k] == x + [NEWLINE]
    ensures ParseText(text[a..]) == AllEntries(text[k..])
  {
    hide ParseText, AllEntries;
    var rest;
    x, rest := BreakLine(text[a..]);
    k := a + |x| + 1;
    SpanIs(text[a..], NotNewline, 0, |x|);
    assert rest == text[k..];
    EntriesOfText(x, rest);
  }

  /** A part that runs to the end lists exactly the entries after the line it begins in;
      so it lists them all if and only if there is none up to the end of that line. */
  lemma LastPart(text: string, a: nat)
    requires a <= |text|
    ensures var k := LineEndFrom(text, a);
            && ParseText(text) == ParseText(text[..k]) + ParseText(text[a..])
            && (ParseText(text[a..]) == ParseText(text) <==> ParseText(text[..k]) == [])
  {
    hide ParseText, AllEntries, LineEndFrom, IsLine;
    if IsLine(text[a..]) {
      PartInLine(text, a);
    } else {
      var x, k := PartAtLine(text, a);
      assert text[..k][k - 1] == text[a..k][|x|];
      assert text == text[..k] + text[k..];
      ParseAppend(text[..k], text[k..]);
    }
  }

  /** Any part of a text lists a run of its entries, only the last of which may be cut:
      those after the line that the part begins in. */
  lemma PartEntries(text: string, a: nat, b: nat)
    requires a <= b <= |text|
    ensures var i := |ParseText(text[..LineEndFrom(text, a)])|;
            i <= |ParseText(text)| && CutEntries(ParseText(text[a..b]), ParseText(text)[i..])
  {
    hide ParseText, CutEntries;
    LastPart(text, a);
    assert text[a..b] <= text[a..];
    Truncation(text[a..], text[a..b]);
    var i := |ParseText(text[..LineEndFrom(text, a)])|;
    assert ParseText(text)[i..] == ParseText(text[a..]);
  }

  /** As many entries as lines after the heading, as `ps` prints them. */
  predicate EveryLineListed(text: string) {
    |ParseText(text)| == CountLines(text) - 1
  }

  lemma CountLinesAppend(a: string, b: string)
    requires EndsLine(a)
    ensures CountLines(a + b) == CountLines(a) + CountLines(b)
  {
    NewlineCountAppend(a, b);
    if b == "" {
      assert a + b == a;
    }
  }

  lemma EntriesBelowLines(text: string)
    requires text != ""
    ensures |ParseText(text)| < CountLines(text)
  {
    if IsLine(text) {
      EntriesOfLine(text);
      NewlineCountOfLine(text);
    } else {
      var x, rest := BreakLine(text);
      EntriesOfText(x, rest);
      CountLinesStep(x, rest);
      EntriesWithinLines(rest);
    }
  }

  /** When every line is listed, a last part loses no entry if and only if
      it begins in the heading. */
  lemma CompleteFromHeading(text: string, a: nat)
    requires a < |text| && EveryLineListed(text)
    ensures ParseText(text[a..]) == ParseText(text) <==> IsLine(text[..a])
  {
    hide ParseText, CountLines, AllEntries, LineEndFrom;
    LastPart(text, a);
    if IsLine(text[a..]) {
      PartInLine(text, a);
      LinesOfHead(text, a);
    } else {
      var x, k := PartAtLine(text, a);
      var head, tail := text[..k], text[k..];
      assert text == head + tail;
      assert head[k - 1] == text[a..k][|x|];
      ParseAppend(head, tail);
      CountLinesAppend(head, tail);
      EntriesBelowLines(head);
      EntriesWithinLines(tail);
      assert head[a..k - 1] == text[a..k][..|x|];
      LinesOfHead(head, a);
      assert head[..a] == text[..a];
    }
  }

  /** A text with no newline between `a` and its last character is one line
      exactly when there is none before `a`. */
  lemma LinesOfHead(head: string, a: nat)
    requires a < |head| && IsLine(head[a..|head| - 1])
    ensures CountLines(head) >= 1
    ensures CountLines(head) == 1 <==> IsLine(head[..a])
  {
    hide NewlineCount;
    var x, last := head[..a], head[|head| - 1..];
    var mid := head[a..|head| - 1];
    assert head == x + mid + last && |last| == 1;
    NewlineCountAppend(x + mid, last);
    NewlineCountAppend(x, mid);
    NewlineCountOfLine(mid);
    OneChar(last[0]);
    assert last == [last[0]];
    NewlinesAreCounted(x);
  }

  lemma OneChar(c: char)
    ensures NewlineCount([c]) == if c == NEWLINE then 1 else 0
  {
    assert [c][..0] == "";
  }

  lemma {:induction false} NewlinesAreCounted(x: string)
    ensures NewlineCount(x) == 0 <==> IsLine(x)
  {
    if x != "" {
      var front := x[..|x| - 1];
      NewlinesAreCounted(front);
      assert x == front + [x[|x| - 1]];
    }
  }

  /** Two replies received at once are listed one after the other: the second heading is
      just a line without an entry. */
  lemma TwoRepliesAtOnce(first: string, heading: string, rest: string)
    requires first != "" && EndsLine(first) && IsLine(heading) && LineEntry(heading) == []
    ensures var second := heading + [NEWLINE] + rest;
            ParseText(first + second) == ParseText(first) + ParseText(second)
  {
    hide ParseText;
    ParseAppend(first, heading + [NEWLINE] + rest);
    EntriesOfText(heading, rest);
  }

  lemma ShortLine(digit: char, name: char)
    requires IsDigit(digit) && !IsSpace(name)
    ensures LineEntry([digit, ' ', name]) == [Entry(DigitValue(digit), [name])]
  {
    var line := [digit, ' ', name];
    SpanIs(line, IsSpace, 0, 0);
    SpanIs(line, IsDigit, 0, 1);
    SpanIs(line, IsSpace, 1, 2);
    assert line[0..1] == [digit] && line[0..1][..0] == "";
    assert line[2..] == [name];
    assert Value([digit]) == DigitValue(digit);
  }

  /** A reply received as its heading and then its two lines: the first entry is lost. */
  lemma EntryLost()
    ensures var lines := ["H", "1 a", "2 b"];
            && Framed(lines) == Framed(lines[..1]) + Framed(lines[1..])
            && ParseText(Framed(lines)) == [Entry(1, "a"), Entry(2, "b")]
            && ParseText(Framed(lines[1..])) == [Entry(2, "b")]
  {
    hide ParseText, LineEntry, Framed;
    var lines := ["H", "1 a", "2 b"];
    ShortLine('1', 'a');
    ShortLine('2', 'b');
    EntriesOfFramed(lines);
    EntriesOfFramed(lines[1..]);
    assert lines[1..][1..] == ["2 b"] && lines[1..][..0] == [];
    assert Collect(LineEntry, ["2 b"]) == LineEntry("2 b");
    FramedAppend(lines[..1], lines[1..]);
    assert lines == lines[..1] + lines[1..];
  }
}
