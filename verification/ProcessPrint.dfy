/** Printing a process list the way `ps -e -o pid,comm` does, and reading it back. */
module ProcessPrint {
  import opened CText
  import opened Decimal
  import opened ProcessText

  /** One printed line: the blanks that right-align the pid, and the entry. */
  datatype Row = Row(blanks: string, entry: Entry)

  predicate IsBlank(s: string) {
    forall i :: 0 <= i < |s| ==> IsSpace(s[i]) && s[i] != NEWLINE
  }

  predicate NotBreak(c: char) {
    c != NEWLINE && c != NUL
  }

  /** The names that survive printing and parsing. */
  predicate GoodName(name: string) {
    && |name| <= 255
    && (forall i :: 0 <= i < |name| ==> NotBreak(name[i]))
    && (name != "" ==> !IsSpace(name[0]))
  }

  function FormatLine(r: Row): string {
    r.blanks + (Digits(r.entry.pid) + (" " + r.entry.name))
  }

  /** The lines after the heading; the last newline is optional. */
  function FormatRows(rows: seq<Row>, final: bool): string {
    if rows == [] then ""
    else if |rows| == 1 && !final then FormatLine(rows[0])
    else FormatLine(rows[0]) + ([NEWLINE] + FormatRows(rows[1..], final))
  }

  function FormatList(header: string, rows: seq<Row>, final: bool): string {
    header + [NEWLINE] + FormatRows(rows, final)
  }

  function RowEntries(rows: seq<Row>): (es: seq<Entry>)
    ensures |es| == |rows| && forall i :: 0 <= i < |rows| ==> es[i] == rows[i].entry
  {
    if rows == [] then [] else [rows[0].entry] + RowEntries(rows[1..])
  }

  function TrimLeft(s: string): string {
    s[Span(s, IsSpace)..]
  }

  /** What the parser makes of a name it finds in a line. */
  function ReadName(name: string): string {
    CutName(TrimLeft(name[..Span(name, NotBreak)]))
  }

  lemma ReadNameIsName(name: string)
    ensures ReadName(name) == name <==> GoodName(name)
  {
    var k := Span(name, NotBreak);
    SpanFacts(name, NotBreak, 0);
    if k < |name| {
      assert |ReadName(name)| < |name|;
    } else {
      assert name[..k] == name;
      assert forall i :: 0 <= i < |name| ==> NotBreak(name[i]);
      if name != "" && IsSpace(name[0]) {
        assert SpanFrom(name, IsSpace, 0) > 0;
      }
    }
  }

  lemma SpanPrinted(blanks: string, digits: string, name: string)
    requires IsBlank(blanks) && AllDigits(digits) && digits != ""
    ensures var line := blanks + (digits + (" " + name));
            var d := |blanks| + |digits|;
            && SpanFrom(line, IsSpace, 0) == |blanks|
            && SpanFrom(line, IsDigit, |blanks|) == d
            && SpanFrom(line, IsSpace, d) == d + 1 + Span(name, IsSpace)
  {
    var z := " " + name;
    SpanAppend(blanks, digits + z, IsSpace);
    SpanAfter(blanks, digits + z, IsDigit);
    SpanAppend(digits, z, IsDigit);
    AppendAssoc(blanks, digits, z);
    SpanAfter(blanks + digits, z, IsSpace);
    SpanAppend(" ", name, IsSpace);
    assert IsDigit(digits[0]);
  }

  lemma PrintedEntry(blanks: string, pid: nat, name: string)
    requires IsBlank(blanks)
    ensures LineEntry(blanks + (Digits(pid) + (" " + name))) == [Entry(pid, CutName(TrimLeft(name)))]
  {
    hide SpanFrom, Value, Digits, CutName;
    var digits := Digits(pid);
    var line := blanks + (digits + (" " + name));
    var a := |blanks|;
    var d := a + |digits|;
    var b := d + 1 + Span(name, IsSpace);
    SpanPrinted(blanks, digits, name);
    assert line[a..d] == digits;
    ValueOfDigits(pid);
    assert line[b..] == TrimLeft(name);
  }

  predicate Plain(s: string) {
    forall i :: 0 <= i < |s| ==> NotBreak(s[i])
  }

  lemma PlainAppend(x: string, y: string)
    ensures Plain(x + y) <==> Plain(x) && Plain(y)
  {
    if Plain(x + y) {
      assert forall i :: 0 <= i < |x| ==> x[i] == (x + y)[i];
      assert forall i :: 0 <= i < |y| ==> y[i] == (x + y)[|x| + i];
    }
  }

  lemma CStrAppend(x: string, y: string)
    requires forall i :: 0 <= i < |x| ==> x[i] != NUL
    ensures CStr(x + y) == x + CStr(y)
  {
    SpanAppend(x, y, NotNul);
  }

  /** The entries of a C string whose first line is `x`. */
  lemma EntriesOfCStr(x: string, y: string)
    requires Plain(x)
    requires y != "" ==> y[0] == NEWLINE || y[0] == NUL
    ensures AllEntries(CStr(x + y)) ==
            LineEntry(x) + (if y != "" && y[0] == NEWLINE then AllEntries(CStr(y[1..])) else [])
  {
    CStrAppend(x, y);
    if y == "" || y[0] == NUL {
      CStrIs(y, 0);
      assert x + CStr(y) == x;
      EntriesOfLine(x);
    } else {
      var z := y[1..];
      assert y == [NEWLINE] + z;
      CStrAppend([NEWLINE], z);
      AppendAssoc(x, [NEWLINE], CStr(z));
      EntriesOfText(x, CStr(z));
    }
  }

  /** A printed line is read up to the first newline or NUL of its name. */
  lemma PrintedPrefix(r: Row) returns (x: string, more: string)
    requires IsBlank(r.blanks)
    ensures FormatLine(r) == x + more && Plain(x)
    ensures LineEntry(x) == [Entry(r.entry.pid, ReadName(r.entry.name))]
    ensures more != "" ==> more[0] == NEWLINE || more[0] == NUL
    ensures GoodName(r.entry.name) ==> more == ""
  {
    var name, digits := r.entry.name, Digits(r.entry.pid);
    var k := Span(name, NotBreak);
    SpanFacts(name, NotBreak, 0);
    var kept := name[..k];
    more := name[k..];
    x := r.blanks + (digits + (" " + kept));
    PrintedEntry(r.blanks, r.entry.pid, kept);
    assert name == kept + more;
    AppendAssoc(" ", kept, more);
    AppendAssoc(digits, " " + kept, more);
    AppendAssoc(r.blanks, digits + (" " + kept), more);
    PlainPrinted(r.blanks, digits, kept);
  }

  lemma PlainPrinted(blanks: string, digits: string, name: string)
    requires IsBlank(blanks) && AllDigits(digits) && Plain(name)
    ensures Plain(blanks + (digits + (" " + name)))
  {
    PlainAppend(" ", name);
    assert Plain(digits) by {
      forall i | 0 <= i < |digits| ensures NotBreak(digits[i]) {
        assert IsDigit(digits[i]);
      }
    }
    PlainAppend(digits, " " + name);
    PlainAppend(blanks, digits + (" " + name));
  }

  /** The first entry read from a printed text is the first row's pid and `ReadName` of its name. */
  lemma FirstPrinted(r: Row, tail: string) returns (rest: seq<Entry>)
    requires IsBlank(r.blanks)
    requires tail != "" ==> tail[0] == NEWLINE
    ensures AllEntries(CStr(FormatLine(r) + tail)) == [Entry(r.entry.pid, ReadName(r.entry.name))] + rest
    ensures GoodName(r.entry.name) ==> rest == if tail == "" then [] else AllEntries(CStr(tail[1..]))
  {
    var x, more := PrintedPrefix(r);
    var y := more + tail;
    AppendAssoc(x, more, tail);
    EntriesOfCStr(x, y);
    rest := if y != "" && y[0] == NEWLINE then AllEntries(CStr(y[1..])) else [];
    if more == "" {
      assert y == tail;
    }
  }

  predicate GoodRows(rows: seq<Row>) {
    forall i :: 0 <= i < |rows| ==> GoodName(rows[i].entry.name)
  }

  lemma GoodRowsCons(r: Row, more: seq<Row>)
    ensures GoodRows([r] + more) <==> GoodName(r.entry.name) && GoodRows(more)
  {
    if GoodRows([r] + more) {
      assert ([r] + more)[0] == r;
      assert forall i :: 0 <= i < |more| ==> more[i] == ([r] + more)[i + 1];
    }
  }

  lemma {:induction false} RowsRoundTrip(rows: seq<Row>, final: bool)
    requires forall i :: 0 <= i < |rows| ==> IsBlank(rows[i].blanks)
    ensures AllEntries(CStr(FormatRows(rows, final))) == RowEntries(rows) <==> GoodRows(rows)
    decreases |rows|
  {
    if rows == [] {
      EntriesOfLine("");
    } else {
      RowsRoundTrip(rows[1..], final);
      assert rows == [rows[0]] + rows[1..];
      RowsStep(rows[0], rows[1..], final);
    }
  }

  lemma FormatCons(r: Row, more: seq<Row>, final: bool) returns (tail: string)
    ensures FormatRows([r] + more, final) == FormatLine(r) + tail
    ensures tail == "" || tail == [NEWLINE] + FormatRows(more, final)
    ensures tail == "" ==> more == []
    ensures RowEntries([r] + more) == [r.entry] + RowEntries(more)
  {
    tail := if more == [] && !final then "" else [NEWLINE] + FormatRows(more, final);
    assert ([r] + more)[1..] == more;
    if tail == "" {
      assert FormatLine(r) + tail == FormatLine(r);
    }
  }

  lemma RowsStep(r: Row, more: seq<Row>, final: bool)
    requires IsBlank(r.blanks)
    requires AllEntries(CStr(FormatRows(more, final))) == RowEntries(more) <==> GoodRows(more)
    ensures AllEntries(CStr(FormatRows([r] + more, final))) == RowEntries([r] + more) <==> GoodRows([r] + more)
  {
    var tail := FormatCons(r, more, final);
    var rest := FirstPrinted(r, tail);
    ReadNameIsName(r.entry.name);
    GoodRowsCons(r, more);
    assert tail != "" ==> tail[1..] == FormatRows(more, final);
    SameHead(Entry(r.entry.pid, ReadName(r.entry.name)), rest, r.entry, RowEntries(more));
  }

  lemma SameHead<T>(a: T, s: seq<T>, b: T, t: seq<T>)
    ensures [a] + s == [b] + t <==> a == b && s == t
  {
    if [a] + s == [b] + t {
      assert ([a] + s)[1..] == s && ([b] + t)[1..] == t;
    }
  }

  /** Printing and parsing is the identity exactly when every name is one the format can carry. */
  lemma PrintParse(header: string, rows: seq<Row>, final: bool)
    requires forall i :: 0 <= i < |header| ==> NotBreak(header[i])
    requires forall i :: 0 <= i < |rows| ==> IsBlank(rows[i].blanks)
    ensures ParseText(CStr(FormatList(header, rows, final))) == RowEntries(rows) <==> GoodRows(rows)
  {
    hide ParseText, AllEntries, CStr, FormatRows, RowEntries, GoodRows;
    var body := FormatRows(rows, final);
    AppendAssoc(header, [NEWLINE], body);
    CStrAppend(header + [NEWLINE], body);
    EntriesOfText(header, CStr(body));
    RowsRoundTrip(rows, final);
  }
}
