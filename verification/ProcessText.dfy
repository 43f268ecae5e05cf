/** What the text of a process list means, stated without loops or pointers.

    The text is split at newlines, the heading line is dropped, and every
    further line that has digits after its leading white space is one entry. */
module ProcessText {
  import opened CText
  import opened Decimal

  /** The longest name an entry can hold: its buffer less the final NUL. */
  const NAME_MAX: nat := 255

  datatype Entry = Entry(pid: nat, name: string)

  function CutName(s: string): (name: string)
    ensures name <= s && (|s| <= 255 ==> name == s) && (|s| > 255 ==> |name| == 255)
    ensures name == s <==> |s| <= 255
  {
    First(s, NAME_MAX)
  }

  /** The entry of one line, if it has one. */
  function LineEntry(line: string): (es: seq<Entry>)
    ensures |es| <= 1
  {
    var a := SpanFrom(line, IsSpace, 0);
    var d := SpanFrom(line, IsDigit, a);
    if a == d then []
    else [Entry(Value(line[a..d]), CutName(line[SpanFrom(line, IsSpace, d)..]))]
  }

  function Lines(text: string): (ls: seq<string>)
    ensures |ls| > 0
    decreases |text|
  {
    var k := Span(text, NotNewline);
    if k == |text| then [text] else [text[..k]] + Lines(text[k + 1..])
  }

  /** The results of `f` on each item, in order, in one sequence. */
  function Collect<A, B>(f: A -> seq<B>, xs: seq<A>): seq<B> {
    if xs == [] then [] else f(xs[0]) + Collect(f, xs[1..])
  }

  /** The process list a text stands for. */
  function ParseText(text: string): seq<Entry> {
    Collect(LineEntry, Lines(text)[1..])
  }

  // ----- Lines is the inverse of joining with newlines -----

  predicate IsLine(s: string) {
    forall i :: 0 <= i < |s| ==> s[i] != NEWLINE
  }

  predicate AreLines(ls: seq<string>) {
    forall i :: 0 <= i < |ls| ==> IsLine(ls[i])
  }

  function Join(ls: seq<string>): string
    requires |ls| > 0
  {
    if |ls| == 1 then ls[0] else ls[0] + [NEWLINE] + Join(ls[1..])
  }

  lemma OneLine(x: string)
    requires IsLine(x)
    ensures Lines(x) == [x]
  {
    SpanIs(x, NotNewline, 0, |x|);
  }

  lemma FirstLine(x: string, rest: string)
    requires IsLine(x)
    ensures Lines(x + [NEWLINE] + rest) == [x] + Lines(rest)
  {
    var t := x + [NEWLINE] + rest;
    SpanIs(t, NotNewline, 0, |x|);
    assert t[..|x|] == x && t[|x| + 1..] == rest;
  }

  /** A text with a newline is its first line, the newline and the rest. */
  lemma BreakLine(text: string) returns (x: string, rest: string)
    requires !IsLine(text)
    ensures text == x + [NEWLINE] + rest && IsLine(x)
    ensures |rest| < |text|
  {
    var k := Span(text, NotNewline);
    SpanFacts(text, NotNewline, 0);
    assert forall i :: 0 <= i < k ==> NotNewline(text[i]);
    x, rest := text[..k], text[k + 1..];
  }

  lemma {:induction false} JoinOfLines(text: string)
    ensures AreLines(Lines(text)) && Join(Lines(text)) == text
    decreases |text|
  {
    if IsLine(text) {
      OneLine(text);
    } else {
      var x, rest := BreakLine(text);
      FirstLine(x, rest);
      JoinOfLines(rest);
      assert ([x] + Lines(rest))[1..] == Lines(rest);
    }
  }

  lemma {:induction false} LinesOfJoin(ls: seq<string>)
    requires |ls| > 0 && AreLines(ls)
    ensures Lines(Join(ls)) == ls
    decreases |ls|
  {
    if |ls| == 1 {
      OneLine(ls[0]);
    } else {
      LinesOfJoin(ls[1..]);
      FirstLine(ls[0], Join(ls[1..]));
    }
  }

  // ----- The entries of a text, first line included -----

  function AllEntries(text: string): seq<Entry> {
    Collect(LineEntry, Lines(text))
  }

  lemma CollectCons<A, B>(f: A -> seq<B>, x: A, xs: seq<A>)
    ensures Collect(f, [x] + xs) == f(x) + Collect(f, xs)
  {
    assert ([x] + xs)[1..] == xs;
  }

  lemma EntriesOfLine(x: string)
    requires IsLine(x)
    ensures AllEntries(x) == LineEntry(x) && ParseText(x) == []
  {
    OneLine(x);
    assert [x] + [] == [x];
    CollectCons(LineEntry, x, []);
  }

  lemma EntriesOfText(x: string, rest: string)
    requires IsLine(x)
    ensures AllEntries(x + [NEWLINE] + rest) == LineEntry(x) + AllEntries(rest)
    ensures ParseText(x + [NEWLINE] + rest) == AllEntries(rest)
  {
    FirstLine(x, rest);
    CollectCons(LineEntry, x, Lines(rest));
    assert ([x] + Lines(rest))[1..] == Lines(rest);
  }

  /** The lines with a newline after each. */
  function Framed(ls: seq<string>): string {
    if ls == [] then "" else ls[0] + [NEWLINE] + Framed(ls[1..])
  }

  lemma {:induction false} FramedAppend(a: seq<string>, b: seq<string>)
    ensures Framed(a + b) == Framed(a) + Framed(b)
  {
    if a == [] {
      assert a + b == b;
    } else {
      FramedAppend(a[1..], b);
      assert (a + b)[1..] == a[1..] + b;
    }
  }

  lemma FramedTwo(x: string, y: string)
    ensures Framed([x, y]) == x + [NEWLINE] + (y + [NEWLINE])
  {
    assert [x, y][1..] == [y];
    assert Framed([y]) == y + [NEWLINE] + "";
  }

  lemma {:induction false} AllEntriesOfFramed(ls: seq<string>)
    requires AreLines(ls)
    ensures AllEntries(Framed(ls)) == Collect(LineEntry, ls)
  {
    if ls == [] {
      EntriesOfLine("");
      assert LineEntry("") == [];
    } else {
      AllEntriesOfFramed(ls[1..]);
      EntriesOfText(ls[0], Framed(ls[1..]));
    }
  }

  lemma EntriesOfFramed(ls: seq<string>)
    requires AreLines(ls) && ls != []
    ensures ParseText(Framed(ls)) == Collect(LineEntry, ls[1..])
  {
    EntriesOfText(ls[0], Framed(ls[1..]));
    AllEntriesOfFramed(ls[1..]);
  }

  // ----- Cutting the text -----

  /** `part` is what is left of `full` when its line is cut. */
  ghost predicate CutEntry(part: Entry, full: Entry) {
    && part.name <= full.name
    && exists k: nat :: part.pid == DropDigits(full.pid, k) && (k > 0 ==> part.name == "")
  }

  /** The entries left of `full`: all but the last are untouched. */
  ghost predicate CutEntries(part: seq<Entry>, full: seq<Entry>) {
    && |part| <= |full|
    && (forall i :: 0 <= i < |part| - 1 ==> part[i] == full[i])
    && (part != [] ==> CutEntry(part[|part| - 1], full[|part| - 1]))
  }

  lemma CutOfPrefix(s: string, part: string)
    requires part <= s
    ensures CutName(part) <= CutName(s)
  {
  }

  lemma SliceOfSlice(s: string, a: nat, d: nat, n: nat)
    requires a <= n <= d <= |s|
    ensures s[..n][a..n] == s[a..d][..n - a]
  {
  }

  /** Cut inside the digits. */
  lemma CutInPid(line: string, a: nat, d: nat, n: nat)
    requires a == SpanFrom(line, IsSpace, 0) && d == SpanFrom(line, IsDigit, a) && a < n <= d
    ensures LineEntry(line[..n]) == [Entry(DropDigits(Value(line[a..d]), d - n), "")]
  {
    hide SpanFrom, Value, DropDigits;
    SpanOfPrefix(line, IsSpace, 0, n);
    SpanOfPrefix(line, IsDigit, a, n);
    SpanOfPrefix(line, IsSpace, n, n);
    var digits := line[a..d];
    SliceOfSlice(line, a, d, n);
    ValueOfCut(digits, n - a);
  }

  /** Cut after the digits. */
  lemma CutInName(line: string, a: nat, d: nat, n: nat)
    requires a == SpanFrom(line, IsSpace, 0) && d == SpanFrom(line, IsDigit, a) && a < d < n <= |line|
    ensures LineEntry(line) != [] && LineEntry(line[..n]) != []
    ensures LineEntry(line[..n])[0].pid == LineEntry(line)[0].pid
    ensures LineEntry(line[..n])[0].name <= LineEntry(line)[0].name
  {
    SpanOfPrefix(line, IsSpace, 0, n);
    SpanOfPrefix(line, IsDigit, a, n);
    SpanOfPrefix(line, IsSpace, d, n);
    assert line[..n][a..d] == line[a..d];
    var b := SpanFrom(line[..n], IsSpace, d);
    var c := SpanFrom(line, IsSpace, d);
    assert line[..n][b..] <= line[c..];
    CutOfPrefix(line[c..], line[..n][b..]);
  }

  lemma LineEntryOfPrefix(line: string, part: string)
    requires part <= line
    ensures CutEntries(LineEntry(part), LineEntry(line))
  {
    var n := |part|;
    assert part == line[..n];
    var a := SpanFrom(line, IsSpace, 0);
    var d := SpanFrom(line, IsDigit, a);
    SpanOfPrefix(line, IsSpace, 0, n);
    if a < n {
      SpanOfPrefix(line, IsDigit, a, n);
      if a < n <= d {
        CutInPid(line, a, d, n);
        var k := d - n;
        assert LineEntry(part)[0].pid == DropDigits(LineEntry(line)[0].pid, k);
      } else if a < d {
        CutInName(line, a, d, n);
        assert LineEntry(part)[0].pid == DropDigits(LineEntry(line)[0].pid, 0);
      }
    }
  }

  lemma CutBehind(front: seq<Entry>, part: seq<Entry>, full: seq<Entry>)
    requires CutEntries(part, full)
    ensures CutEntries(front + part, front + full)
  {
    if front != [] && part == [] {
      var e := front[|front| - 1];
      assert e.pid == DropDigits(e.pid, 0);
    }
  }

  lemma CutInFirstLine(x: string, part: string, more: seq<Entry>)
    requires IsLine(x) && part <= x
    ensures CutEntries(AllEntries(part), LineEntry(x) + more)
  {
    EntriesOfLine(part);
    LineEntryOfPrefix(x, part);
  }

  lemma AfterLine(x: string, rest: string, part: string) returns (part': string)
    requires part <= x + [NEWLINE] + rest && |x| < |part|
    ensures part == x + [NEWLINE] + part' && part' <= rest
  {
    part' := part[|x| + 1..];
  }

  lemma {:induction false} AllEntriesOfPrefix(text: string, part: string)
    requires part <= text
    ensures CutEntries(AllEntries(part), AllEntries(text))
    decreases |text|
  {
    if IsLine(text) {
      EntriesOfLine(text);
      EntriesOfLine(part);
      LineEntryOfPrefix(text, part);
    } else {
      var x, rest := BreakLine(text);
      EntriesOfText(x, rest);
      if |part| <= |x| {
        CutInFirstLine(x, part, AllEntries(rest));
      } else {
        var part' := AfterLine(x, rest, part);
        AllEntriesOfPrefix(rest, part');
        EntriesOfText(x, part');
        CutBehind(LineEntry(x), AllEntries(part'), AllEntries(rest));
      }
    }
  }

  /** Cutting a response anywhere is harmless except at its last entry. */
  lemma Truncation(text: string, part: string)
    requires part <= text
    ensures CutEntries(ParseText(part), ParseText(text))
  {
    if IsLine(part) {
      EntriesOfLine(part);
    } else {
      var x, rest := BreakLine(part);
      var rest' := text[|x| + 1..];
      assert text == x + [NEWLINE] + rest';
      EntriesOfText(x, rest);
      EntriesOfText(x, rest');
      AllEntriesOfPrefix(rest', rest);
    }
  }

  predicate EndsLine(text: string) {
    text == "" || text[|text| - 1] == NEWLINE
  }

  lemma AppendAssoc<T>(a: seq<T>, b: seq<T>, c: seq<T>)
    ensures a + b + c == a + (b + c)
  {
  }

  /** Text that ends a line can be followed by more text without changing an entry. */
  lemma {:induction false} AllEntriesAppend(a: string, b: string)
    requires EndsLine(a)
    ensures AllEntries(a + b) == AllEntries(a) + AllEntries(b)
    decreases |a|
  {
    if a == "" {
      assert a + b == b;
      EntriesOfLine(a);
    } else {
      var x, rest := BreakLine(a);
      AllEntriesAppend(rest, b);
      EntriesOfText(x, rest);
      EntriesOfText(x, rest + b);
      AppendAssoc(x + [NEWLINE], rest, b);
      AppendAssoc(LineEntry(x), AllEntries(rest), AllEntries(b));
    }
  }

  /** Cutting after a whole line changes no entry that is left. */
  lemma CutAtLine(a: string, b: string)
    requires EndsLine(a)
    ensures ParseText(a) <= ParseText(a + b)
  {
    if a == "" {
      EntriesOfLine(a);
    } else {
      var x, rest := BreakLine(a);
      EntriesOfText(x, rest);
      EntriesOfText(x, rest + b);
      AllEntriesAppend(rest, b);
      AppendAssoc(x + [NEWLINE], rest, b);
    }
  }

  // ----- The line counter kept beside the text -----

  function NewlineCount(s: string): nat {
    if s == "" then 0 else NewlineCount(s[..|s| - 1]) + (if s[|s| - 1] == NEWLINE then 1 else 0)
  }

  /** Newlines, plus one for an unfinished last line. */
  function CountLines(s: string): nat {
    NewlineCount(s) + (if EndsLine(s) then 0 else 1)
  }

  lemma {:induction false} NewlineCountAppend(x: string, y: string)
    ensures NewlineCount(x + y) == NewlineCount(x) + NewlineCount(y)
    decreases |y|
  {
    if y == "" {
      assert x + y == x;
    } else {
      NewlineCountAppend(x, y[..|y| - 1]);
      assert (x + y)[..|x + y| - 1] == x + y[..|y| - 1];
    }
  }

  lemma {:induction false} NewlineCountOfLine(x: string)
    requires IsLine(x)
    ensures NewlineCount(x) == 0
  {
    if x != "" {
      NewlineCountOfLine(x[..|x| - 1]);
    }
  }

  lemma {:induction false} CountLinesMonotone(s: string, part: string)
    requires part <= s
    ensures CountLines(part) <= CountLines(s)
    decreases |s|
  {
    if |part| == |s| {
      assert part == s;
    } else {
      CountLinesMonotone(s[..|s| - 1], part);
    }
  }

  lemma CountLinesStep(x: string, rest: string)
    requires IsLine(x)
    ensures CountLines(x + [NEWLINE] + rest) == 1 + CountLines(rest)
  {
    NewlineCountOfLine(x);
    NewlineCountAppend(x, [NEWLINE]);
    NewlineCountAppend(x + [NEWLINE], rest);
    assert [NEWLINE][..0] == "";
  }

  lemma {:induction false} EntriesWithinLines(text: string)
    ensures |AllEntries(text)| <= CountLines(text)
    decreases |text|
  {
    if IsLine(text) {
      EntriesOfLine(text);
    } else {
      var x, rest := BreakLine(text);
      EntriesOfText(x, rest);
      CountLinesStep(x, rest);
      EntriesWithinLines(rest);
    }
  }

  /** A received buffer never yields as many entries as the lines counted in it,
      even when the parser stops at a NUL that the line counter runs past. */
  lemma EntryCountBound(raw: string)
    ensures |ParseText(CStr(raw))| <= if CountLines(raw) > 0 then CountLines(raw) - 1 else 0
  {
    var text := CStr(raw);
    CountLinesMonotone(raw, text);
    if IsLine(text) {
      EntriesOfLine(text);
    } else {
      var x, rest := BreakLine(text);
      EntriesOfText(x, rest);
      CountLinesStep(x, rest);
      EntriesWithinLines(rest);
    }
  }
}
