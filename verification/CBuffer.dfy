/** The string functions of the C library that the programs call on their buffers. */
module CBuffer {
  import opened CText

  method Strlen(buf: array<char>) returns (n: nat)
    requires NUL in buf[..]
    ensures n == |CStr(buf[..])| < buf.Length
  {
    n := 0;
    ghost var t := CStr(buf[..]);
    while buf[n] != NUL
      invariant n <= |t| && NUL !in buf[..n]
      decreases |t| - n
    {
      assert buf[..n + 1] == buf[..n] + [buf[n]];
      n := n + 1;
    }
    CStrIs(buf[..], n);
  }

  /** Writes `text` and a NUL at `at`, as strcpy and strcat do. */
  method WriteString(buf: array<char>, at: nat, text: string)
    requires at + |text| < buf.Length
    requires NUL !in buf[..at] && NUL !in text
    modifies buf
    ensures CStr(buf[..]) == old(buf[..at]) + text
    ensures NUL in buf[..]
    ensures forall k :: at + |text| < k < buf.Length ==> buf[k] == old(buf[k])
  {
    var i := 0;
    while i < |text|
      invariant i <= |text|
      invariant buf[..at] == old(buf[..at])
      invariant buf[at..at + i] == text[..i]
      invariant forall k :: at + i <= k < buf.Length ==> buf[k] == old(buf[k])
    {
      buf[at + i] := text[i];
      i := i + 1;
    }
    buf[at + i] := NUL;
    ghost var whole := old(buf[..at]) + text;
    assert buf[..at + |text|] == whole;
    CStrIs(buf[..], at + |text|);
    assert buf[..][at + |text|] == NUL;
  }

  /** What `recv` does with the bytes it gets. */
  method Fill(buf: array<char>, bytes: string)
    requires |bytes| <= buf.Length
    modifies buf
    ensures buf[..|bytes|] == bytes
  {
    for i := 0 to |bytes|
      invariant buf[..i] == bytes[..i]
    {
      buf[i] := bytes[i];
    }
  }

  method Strcpy(buf: array<char>, text: string)
    requires |text| < buf.Length && NUL !in text
    modifies buf
    ensures CStr(buf[..]) == text && NUL in buf[..]
  {
    assert buf[..0] == [];
    WriteString(buf, 0, text);
    assert old(buf[..0]) + text == text;
  }

  method Strcat(buf: array<char>, text: string)
    requires NUL in buf[..] && NUL !in text
    requires |CStr(buf[..])| + |text| < buf.Length
    modifies buf
    ensures CStr(buf[..]) == old(CStr(buf[..])) + text && NUL in buf[..]
  {
    var n := Strlen(buf);
    assert buf[..n] == CStr(buf[..]);
    WriteString(buf, n, text);
  }
}
