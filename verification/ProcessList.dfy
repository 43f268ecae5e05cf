/** The client's process list: a doubling array filled by a pointer parser. */
module ProcessLists {
  import opened CText
  import opened Decimal
  import opened ProcessText

  const INITIAL_CAPACITY: nat := 32

  function Pow2(k: nat): nat {
    if k == 0 then 1 else 2 * Pow2(k - 1)
  }

  /** The capacities that doubling can reach. */
  ghost predicate Doubled(capacity: nat) {
    exists k: nat :: capacity == 32 * Pow2(k)
  }

  lemma DoubledAgain(capacity: nat)
    requires Doubled(capacity)
    ensures Doubled(2 * capacity) && capacity > 0
  {
    var k: nat :| capacity == 32 * Pow2(k);
    Pow2Positive(k);
    assert 2 * capacity == 32 * Pow2(k + 1);
  }

  lemma {:induction false} Pow2Positive(k: nat)
    ensures Pow2(k) > 0
  {
    if k > 0 {
      Pow2Positive(k - 1);
    }
  }

  /** The parser's first line is skipped. */
  lemma SkipFirst(t: string, p: nat)
    requires p <= |t| && IsLine(t[..p][0..]) && (p < |t| ==> t[p] == NEWLINE)
    ensures ParseText(t) == Remaining(t, p)
  {
    assert t[..p][0..] == t[..p];
    if p < |t| {
      assert t == t[..p] + [NEWLINE] + t[p + 1..];
      EntriesOfText(t[..p], t[p + 1..]);
    } else {
      assert t[..p] == t;
      EntriesOfLine(t);
    }
  }

  /** The entries of the lines after the one that ends at `p`. */
  function Remaining(t: string, p: nat): seq<Entry>
    requires p <= |t|
  {
    if p < |t| then AllEntries(t[p + 1..]) else []
  }

  lemma NothingAtEnd(t: string)
    ensures AllEntries(t[|t|..]) == []
  {
    assert t[|t|..] == "";
    EntriesOfLine("");
  }

  /** Every further line adds its entry. */
  lemma NextLine(t: string, i: nat, p: nat)
    requires i <= p <= |t| && IsLine(t[..p][i..]) && (p < |t| ==> t[p] == NEWLINE)
    ensures AllEntries(t[i..]) == LineEntry(t[..p][i..]) + Remaining(t, p)
  {
    var x := t[..p][i..];
    if p < |t| {
      assert t[i..] == x + [NEWLINE] + t[p + 1..];
      EntriesOfText(x, t[p + 1..]);
    } else {
      assert t[i..] == x;
      EntriesOfLine(x);
    }
  }

  /** The text still to be read at a stop of the line scan. */
  lemma LineBounds(raw: string, i: nat, p: nat)
    requires i <= p <= |CStr(raw)| < |raw|
    requires forall j :: i <= j < p ==> raw[j] != NEWLINE
    ensures IsLine(raw[..p][i..]) && CStr(raw)[..p] == raw[..p]
    ensures p < |CStr(raw)| <==> raw[p] != NUL
    ensures p < |CStr(raw)| ==> CStr(raw)[p] == raw[p]
  {
    var t := CStr(raw);
    assert t == raw[..|t|];
    if p < |t| {
      assert t[p] in t;
    }
  }

  /** Scans to the newline or NUL that ends the line. */
  method LineEnd(raw: array<char>, start: nat) returns (p: nat)
    requires start <= |CStr(raw[..])| < raw.Length
    ensures start <= p <= |CStr(raw[..])|
    ensures IsLine(raw[..p][start..]) && CStr(raw[..])[..p] == raw[..p]
    ensures p < |CStr(raw[..])| <==> raw[p] == NEWLINE
    ensures p < |CStr(raw[..])| ==> CStr(raw[..])[p] == NEWLINE
  {
    ghost var t := CStr(raw[..]);
    p := start;
    LineBounds(raw[..], start, p);
    while raw[p] != NUL && raw[p] != NEWLINE
      invariant start <= p <= |t|
      invariant forall j :: start <= j < p ==> raw[j] != NEWLINE
      invariant p < |t| <==> raw[p] != NUL
      decreases |t| - p
    {
      p := p + 1;
      LineBounds(raw[..], start, p);
    }
    LineBounds(raw[..], start, p);
  }

  method SkipSpaces(raw: array<char>, start: nat, end: nat) returns (s: nat)
    requires start <= end <= raw.Length
    ensures s == SpanFrom(raw[..end], IsSpace, start)
  {
    s := start;
    while s < end && IsSpace(raw[s])
      invariant start <= s <= end
      invariant forall i :: start <= i < s ==> IsSpace(raw[i])
    {
      s := s + 1;
    }
    SpanIs(raw[..end], IsSpace, start, s);
  }

  method ReadPid(raw: array<char>, start: nat, end: nat) returns (pid: nat, hasDigit: bool, s: nat)
    requires start <= end <= raw.Length
    ensures s == SpanFrom(raw[..end], IsDigit, start)
    ensures hasDigit <==> start < s
    ensures pid == Value(raw[..end][start..s])
  {
    pid, hasDigit, s := 0, false, start;
    while s < end && IsDigit(raw[s])
      invariant start <= s <= end
      invariant forall i :: start <= i < s ==> IsDigit(raw[i])
      invariant pid == Value(raw[start..s])
      invariant hasDigit <==> start < s
    {
      assert raw[start..s + 1][..s - start] == raw[start..s];
      pid := pid * 10 + DigitValue(raw[s]);
      hasDigit := true;
      s := s + 1;
    }
    SpanIs(raw[..end], IsDigit, start, s);
    assert raw[..end][start..s] == raw[start..s];
  }

  /** The entry of a line in the middle of a text. */
  lemma LineEntryAt(text: string, i: nat, a: nat, d: nat, b: nat)
    requires i <= |text| && a == SpanFrom(text, IsSpace, i) && d == SpanFrom(text, IsDigit, a)
    requires b == SpanFrom(text, IsSpace, d)
    ensures LineEntry(text[i..]) == if a == d then [] else [Entry(Value(text[a..d]), CutName(text[b..]))]
  {
    hide SpanFrom, Value, CutName;
    var line := text[i..];
    SpanOfSuffix(text, IsSpace, i, i);
    SpanOfSuffix(text, IsDigit, i, a);
    SpanOfSuffix(text, IsSpace, i, d);
    SliceOfSuffix(text, i, a, d);
    SliceOfSuffix(text, i, b, b);
  }

  /** Reads one line: skips white space, accumulates the pid, skips white space again. */
  method ScanLine(raw: array<char>, lineStart: nat, lineLen: nat) returns (hasDigit: bool, pid: nat, s: nat)
    requires lineStart + lineLen <= raw.Length
    ensures hasDigit <==> LineEntry(raw[..lineStart + lineLen][lineStart..]) != []
    ensures hasDigit ==>
              && lineStart <= s <= lineStart + lineLen
              && LineEntry(raw[..lineStart + lineLen][lineStart..]) ==
                 [Entry(pid, CutName(raw[..lineStart + lineLen][s..]))]
  {
    var end := lineStart + lineLen;
    ghost var text := raw[..end];
    ghost var a := SpanFrom(text, IsSpace, lineStart);
    ghost var d := SpanFrom(text, IsDigit, a);
    LineEntryAt(text, lineStart, a, d, SpanFrom(text, IsSpace, d));
    pid, hasDigit := 0, false;
    s := SkipSpaces(raw, lineStart, end);
    if s < end {
      pid, hasDigit, s := ReadPid(raw, s, end);
      if hasDigit {
        s := SkipSpaces(raw, s, end);
      }
    }
  }

  lemma EmptyLine()
    ensures LineEntry("") == []
  {
  }

  /** Copies a name into an entry's buffer of NAME_MAX + 1 bytes. */
  method CopyName(raw: array<char>, s: nat, nameLen: nat) returns (name: string)
    requires s + nameLen <= raw.Length
    ensures name == CutName(raw[..s + nameLen][s..])
  {
    if 0 < nameLen < NAME_MAX + 1 {
      name := raw[s..s + nameLen];
      assert name == raw[..s + nameLen][s..];
    } else if nameLen >= NAME_MAX + 1 {
      name := raw[s..s + NAME_MAX];
      assert name == raw[..s + nameLen][s..][..NAME_MAX];
    } else {
      name := "";
    }
  }

  class ProcessList {
    var entries: array?<Entry>
    var count: nat
    var capacity: nat
    /** The elements that all reallocations since the list was emptied have copied. */
    ghost var copied: nat

    ghost predicate Valid()
      reads this
    {
      if entries == null then count == 0 && capacity == 0
      else count <= capacity && capacity == entries.Length
    }

    ghost function Items(): (es: seq<Entry>)
      requires Valid()
      reads this, entries
      ensures |es| == count
    {
      if entries == null then [] else entries[..count]
    }

    constructor ()
      ensures Valid() && entries == null
    {
      entries, count, capacity := null, 0, 0;
      copied := 0;
    }

    /** Grown by doubling only, never to twice what it holds; every element copied is accounted for. */
    ghost predicate Grown()
      reads this
    {
      && entries != null
      && Doubled(capacity)
      && copied == capacity - 32
      && (capacity == 32 || capacity < 2 * count)
    }

    /** Doubles the array as `realloc` does, one element after the other. */
    method Double()
      requires Valid() && entries != null && capacity > 0
      modifies this
      ensures Valid() && fresh(entries) && capacity == 2 * old(capacity)
      ensures count == old(count) && Items() == old(Items())
      ensures copied == old(copied) + old(capacity)
    {
      var newCap := capacity * 2;
      var tmp := new Entry[newCap];
      var i := 0;
      while i < capacity
        modifies tmp, `copied
        invariant i <= capacity
        invariant tmp[..i] == entries[..i]
        invariant copied == old(copied) + i
      {
        tmp[i] := entries[i];
        copied := copied + 1;
        i := i + 1;
      }
      assert tmp[..count] == entries[..count];
      entries := tmp;
      capacity := newCap;
    }

    /** Appends an entry, doubling the array when it is full. */
    method Append(entry: Entry)
      requires Valid() && Grown()
      modifies this, entries
      ensures Valid() && Grown()
      ensures entries == old(entries) || fresh(entries)
      ensures Items() == old(Items()) + [entry]
      ensures capacity == if old(count) == old(capacity) then 2 * old(capacity) else old(capacity)
      ensures copied == old(copied) + if old(count) == old(capacity) then old(count) else 0
    {
      DoubledAgain(capacity);
      if count >= capacity {
        Double();
      }
      entries[count] := entry;
      count := count + 1;
    }

    /** What has been copied since a state with the given counts: nothing, or each element of one array. */
    ghost predicate CopiedSince(wasCopied: nat, wasCapacity: nat)
      reads this
    {
      copied == wasCopied + if capacity == wasCapacity then 0 else wasCapacity
    }

    /** Appends the entry of one line, if it has one. */
    method AddLine(raw: array<char>, lineStart: nat, lineLen: nat, ghost p: nat)
      requires Valid() && Grown()
      requires lineStart + lineLen == p <= raw.Length
      requires raw as object != entries
      modifies this, entries
      ensures Valid() && Grown() && CopiedSince(old(copied), old(capacity))
      ensures entries == old(entries) || fresh(entries)
      ensures Items() == old(Items()) + old(LineEntry(raw[..p][lineStart..]))
    {
      hide LineEntry, CutName;
      ghost var line := raw[..p][lineStart..];
      EmptyLine();
      DoubledAgain(capacity);
      if lineLen > 0 {
        var hasDigit, pid, s := ScanLine(raw, lineStart, lineLen);
        if hasDigit {
          var name := CopyName(raw, s, lineStart + lineLen - s);
          Append(Entry(pid, name));
        }
      } else {
        assert line == "";
      }
    }

    /** One line after the first: its entry, if any, is appended. */
    method NextEntry(raw: array<char>, lineStart: nat, p: nat)
      requires Valid() && Grown() && raw as object != entries
      requires lineStart <= p <= |CStr(raw[..])|
      requires CStr(raw[..])[..p] == raw[..p] && IsLine(raw[..p][lineStart..])
      requires p < |CStr(raw[..])| ==> CStr(raw[..])[p] == NEWLINE
      modifies this, entries
      ensures Valid() && Grown() && CopiedSince(old(copied), old(capacity))
      ensures entries == old(entries) || fresh(entries)
      ensures Items() + old(Remaining(CStr(raw[..]), p)) ==
              old(Items()) + old(AllEntries(CStr(raw[..])[lineStart..]))
    {
      ghost var t, before := CStr(raw[..]), Items();
      ghost var line := t[..p][lineStart..];
      NextLine(t, lineStart, p);
      AddLine(raw, lineStart, p - lineStart, p);
      AppendAssoc(before, LineEntry(line), Remaining(t, p));
    }

    /** One pass of the line loop: the first line is skipped, any other may add an entry. */
    method ReadLine(raw: array<char>, isFirst: bool, lineStart: nat) returns (p: nat)
      requires Valid() && Grown() && raw as object != entries
      requires lineStart <= |CStr(raw[..])| < raw.Length
      requires isFirst ==> lineStart == 0 && count == 0
      requires !isFirst ==> Items() + AllEntries(CStr(raw[..])[lineStart..]) == ParseText(CStr(raw[..]))
      modifies this, entries
      ensures Valid() && Grown() && CopiedSince(old(copied), old(capacity))
      ensures entries == old(entries) || fresh(entries)
      ensures lineStart <= p <= |old(CStr(raw[..]))|
      ensures Items() + old(Remaining(CStr(raw[..]), p)) == old(ParseText(CStr(raw[..])))
      ensures p < |old(CStr(raw[..]))| <==> old(raw[p]) == NEWLINE
    {
      p := LineEnd(raw, lineStart);
      if isFirst {
        SkipFirst(CStr(raw[..]), p);
      } else {
        NextEntry(raw, lineStart, p);
      }
    }

    /** Parses the C string in `raw` (or a null pointer) into this list. */
    method Parse(raw: array?<char>) returns (rc: int)
      requires raw != null ==> NUL in raw[..]
      modifies this
      ensures rc == 0
      ensures Valid() && (entries == null || fresh(entries))
      ensures Items() == if raw == null then [] else ParseText(CStr(raw[..]))
      ensures if raw == null || CStr(raw[..]) == "" then entries == null && copied == 0 else Grown()
    {
      entries, count, capacity := null, 0, 0;
      copied := 0;
      rc := 0;
      if raw == null {
        return;
      }
      if raw[0] == NUL {
        CStrIs(raw[..], 0);
        EntriesOfLine("");
        return;
      }
      entries := new Entry[INITIAL_CAPACITY];
      capacity := INITIAL_CAPACITY;
      assert INITIAL_CAPACITY == 32 * Pow2(0);
      ParseLines(raw);
    }

    /** The line loop of the parser, on an empty list. */
    method ParseLines(raw: array<char>)
      requires NUL in raw[..] && raw as object != entries
      requires Valid() && count == 0 && Grown() && raw[0] != NUL
      modifies this, entries
      ensures Valid() && Grown() && (entries == old(entries) || fresh(entries))
      ensures Items() == ParseText(old(CStr(raw[..])))
    {
      hide ParseText, AllEntries, CopiedSince, Doubled;
      ghost var text := raw[..];
      ghost var t := CStr(text);
      var isFirst, lineStart := true, 0;
      NothingAtEnd(t);
      while raw[lineStart] != NUL
        invariant lineStart <= |t| && raw[..] == text
        invariant Valid() && Grown() && (entries == old(entries) || fresh(entries))
        invariant isFirst ==> lineStart == 0 && count == 0
        invariant !isFirst ==> Items() + AllEntries(t[lineStart..]) == ParseText(t)
        decreases |t| - lineStart
      {
        var p := ReadLine(raw, isFirst, lineStart);
        isFirst := false;
        if raw[p] == NEWLINE {
          lineStart := p + 1;
        } else {
          lineStart := p;
          break;
        }
      }
    }

    /** Drops the entries. */
    method Free()
      modifies this
      ensures Valid() && entries == null && Items() == []
    {
      if entries != null {
        entries := null;
      }
      count := 0;
      capacity := 0;
    }

    /** The entries drawn in a panel of the given height and width at a scroll offset. */
    method VisibleRows(height: int, width: int, offset: nat) returns (rows: seq<Entry>)
      requires Valid()
      ensures rows == Window(Items(), height, width, offset)
    {
      rows := [];
      var innerH, innerW := height - 2, width - 2;
      if innerH <= 0 || innerW <= 0 || count == 0 {
        return;
      }
      var visible := innerH - 1;
      var row := 0;
      while row < visible && offset + row < count
        invariant 0 <= row <= visible
        invariant row == 0 || offset + row <= count
        invariant |rows| == row && forall i :: 0 <= i < row ==> rows[i] == entries[offset + i]
      {
        rows := rows + [entries[offset + row]];
        row := row + 1;
      }
    }
  }

  /** The part of a list that a panel shows. */
  function Window(items: seq<Entry>, height: int, width: int, offset: nat): (rows: seq<Entry>)
    ensures forall i :: 0 <= i < |rows| ==> offset + i < |items| && rows[i] == items[offset + i]
    ensures height >= 3 && width >= 3 ==>
              |rows| == if offset >= |items| then 0
                        else if |items| - offset < height - 3 then |items| - offset else height - 3
  {
    if height < 3 || width < 3 || offset >= |items| then []
    else if |items| - offset < height - 3 then items[offset..]
    else items[offset..offset + height - 3]
  }
}
