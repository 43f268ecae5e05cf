/** Splitting at delimiters the way `strtok` does (section 7.24.5.8 of C11), and what it amounts to. */
module Tokens {
  import opened CText
  import opened Options

  function OneOf(delims: string): char -> bool {
    c => c in delims
  }

  function NoneOf(delims: string): char -> bool {
    c => c !in delims
  }

  /** The first token of `rest` and what remains after the delimiter that ends it. */
  function NextToken(rest: string, delims: string): (r: (Option<string>, string))
    ensures |r.1| <= |rest|
    ensures r.0.Some? ==> r.0.value != "" && |r.0.value| + |r.1| <= |rest|
  {
    var a := SpanFrom(rest, OneOf(delims), 0);
    if a == |rest| then (None, "")
    else
      var e := SpanFrom(rest, NoneOf(delims), a);
      SpanFacts(rest, OneOf(delims), 0);
      assert e > a;
      (Some(rest[a..e]), if e < |rest| then rest[e + 1..] else "")
  }

  predicate StartsWord(front: string) {
    front == "" || front[|front| - 1] == ' '
  }

  /** The words after one more character; `begins` says that no word is being extended. */
  function AddChar(ws: seq<string>, begins: bool, c: char): seq<string> {
    if c == ' ' then ws
    else if begins || ws == [] then ws + [[c]]
    else ws[..|ws| - 1] + [ws[|ws| - 1] + [c]]
  }

  /** The maximal space-free pieces of a text, by one pass over its characters. */
  function Words(s: string): (ws: seq<string>)
    ensures !StartsWord(s) ==> ws != []
  {
    if s == "" then [] else AddChar(Words(s[..|s| - 1]), StartsWord(s[..|s| - 1]), s[|s| - 1])
  }

  lemma WordsSnoc(front: string, c: char)
    ensures Words(front + [c]) == AddChar(Words(front), StartsWord(front), c)
  {
    assert (front + [c])[..|front|] == front;
  }

  lemma AddCharAfter(ws: seq<string>, more: seq<string>, begins: bool, c: char)
    requires begins || more != []
    ensures AddChar(ws + more, begins, c) == ws + AddChar(more, begins, c)
  {
  }

  predicate IsWord(w: string) {
    w != "" && forall i :: 0 <= i < |w| ==> w[i] != ' '
  }

  lemma {:induction false} WordsOfBlanks(s: string)
    requires forall i :: 0 <= i < |s| ==> s[i] == ' '
    ensures Words(s) == []
  {
    if s != "" {
      WordsOfBlanks(s[..|s| - 1]);
    }
  }

  lemma {:induction false} WordsOfWord(w: string)
    requires IsWord(w)
    ensures Words(w) == [w]
  {
    var front := w[..|w| - 1];
    assert w == front + [w[|w| - 1]];
    if front != "" {
      WordsOfWord(front);
    }
  }

  lemma {:induction false} WordsAtSpace(x: string, y: string)
    ensures Words(x + " " + y) == Words(x) + Words(y)
    decreases |y|
  {
    if y == "" {
      WordsSnoc(x, ' ');
      assert x + " " + y == x + [' '];
      assert Words(x) + Words(y) == Words(x);
    } else {
      var front, c := y[..|y| - 1], y[|y| - 1];
      assert x + " " + y == (x + " " + front) + [c];
      WordsAtSpace(x, front);
      WordsSnoc(x + " " + front, c);
      assert StartsWord(x + " " + front) == StartsWord(front);
      AddCharAfter(Words(x), Words(front), StartsWord(front), c);
    }
  }

  lemma WordsAfterBlanks(b: string, s: string)
    requires forall i :: 0 <= i < |b| ==> b[i] == ' '
    ensures Words(b + s) == Words(s)
  {
    if b == "" {
      assert b + s == s;
    } else {
      var front := b[..|b| - 1];
      WordsOfBlanks(front);
      WordsAtSpace(front, s);
      assert b == front + " ";
    }
  }

  lemma {:induction false} WordsAreWords(s: string)
    ensures forall i :: 0 <= i < |Words(s)| ==> IsWord(Words(s)[i])
  {
    if s != "" {
      WordsAreWords(s[..|s| - 1]);
    }
  }

  lemma {:induction false} WordsFrom(s: string)
    ensures forall i, c :: 0 <= i < |Words(s)| && c in Words(s)[i] ==> c in s
  {
    if s != "" {
      var front, last := s[..|s| - 1], s[|s| - 1];
      WordsFrom(front);
      assert last in s && forall c :: c in front ==> c in s;
      var ws := Words(front);
      forall i, c | 0 <= i < |Words(s)| && c in Words(s)[i]
        ensures c in s
      {
        assert c == last || (i < |ws| && c in ws[i]);
      }
    }
  }

  /** Each `strtok` call with a space takes the next word. */
  lemma NextWord(rest: string)
    ensures var r := NextToken(rest, " ");
            if r.0.None? then Words(rest) == [] else Words(rest) == [r.0.value] + Words(r.1)
    ensures NextToken(rest, " ").0.Some? ==> IsWord(NextToken(rest, " ").0.value)
  {
    hide Words, SpanFrom;
    var sp, non := OneOf(" "), NoneOf(" ");
    var a := SpanFrom(rest, sp, 0);
    SpanFacts(rest, sp, 0);
    assert forall j :: 0 <= j < a ==> sp(rest[j]) && rest[j] == ' ';
    if a == |rest| {
      WordsOfBlanks(rest);
    } else {
      var e := SpanFrom(rest, non, a);
      SpanFacts(rest, non, a);
      assert forall j :: a <= j < e ==> non(rest[j]) && rest[j] != ' ';
      assert e < |rest| ==> rest[e] == ' ';
      WordsStep(rest, a, e);
    }
  }

  lemma WordsStep(s: string, a: nat, e: nat)
    requires a < e <= |s|
    requires forall j :: 0 <= j < a ==> s[j] == ' '
    requires forall j :: a <= j < e ==> s[j] != ' '
    requires e < |s| ==> s[e] == ' '
    ensures IsWord(s[a..e])
    ensures Words(s) == [s[a..e]] + Words(if e < |s| then s[e + 1..] else "")
  {
    hide Words;
    var b, w := s[..a], s[a..e];
    WordsOfBlanks("");
    WordsOfWord(w);
    WordsAfterBlanks(b, w);
    if e < |s| {
      WordsAtSpace(b + w, s[e + 1..]);
      assert s == b + w + " " + s[e + 1..];
    } else {
      assert s == b + w;
      assert [w] + Words("") == [w];
    }
  }

  // ----- Joining words -----

  function JoinWords(ws: seq<string>): string {
    if ws == [] then "" else if |ws| == 1 then ws[0] else ws[0] + " " + JoinWords(ws[1..])
  }

  lemma {:induction false} WordsOfJoin(ws: seq<string>)
    requires forall i :: 0 <= i < |ws| ==> IsWord(ws[i])
    ensures Words(JoinWords(ws)) == ws
  {
    if |ws| == 1 {
      WordsOfWord(ws[0]);
    } else if ws != [] {
      WordsOfWord(ws[0]);
      WordsOfJoin(ws[1..]);
      WordsAtSpace(ws[0], JoinWords(ws[1..]));
    }
  }

  /** Joining the words of a text again never makes it longer, however many are kept. */
  lemma {:induction false} JoinNotLonger(s: string, n: nat)
    requires n <= |Words(s)|
    ensures |JoinWords(Words(s)[..n])| <= |s|
    decreases |s|
  {
    hide Words, NextToken;
    NextWord(s);
    var r := NextToken(s, " ");
    if n > 0 {
      var w, rest := r.0.value, r.1;
      var ws := Words(rest);
      assert Words(s)[..n] == [w] + ws[..n - 1];
      if n > 1 {
        NextWord(rest);
        SpaceBetween(s);
        JoinNotLonger(rest, n - 1);
        assert ([w] + ws[..n - 1])[1..] == ws[..n - 1];
      }
    }
  }

  lemma SpaceBetween(s: string)
    requires NextToken(s, " ").0.Some? && NextToken(s, " ").1 != ""
    ensures |NextToken(s, " ").0.value| + 1 + |NextToken(s, " ").1| <= |s|
  {
  }

  // ----- strtok on a buffer -----

  /** The state of a `strtok` scan: a buffer that it cuts in place, and where it goes on. */
  class Scanner {
    const buf: array<char>
    var save: nat

    ghost predicate Valid()
      reads this, buf
    {
      save < buf.Length && NUL in buf[..][save..]
    }

    /** What has not been handed out yet. */
    ghost function Rest(): string
      requires Valid()
      reads this, buf
    {
      CStr(buf[..][save..])
    }

    constructor (buf: array<char>)
      requires NUL in buf[..]
      ensures Valid() && this.buf == buf && save == 0 && Rest() == CStr(buf[..])
    {
      this.buf := buf;
      this.save := 0;
      new;
      assert buf[..][0..] == buf[..];
    }

    /** Skips characters from `save` on while they satisfy `p`. */
    method Skip(p: char -> bool, start: nat) returns (k: nat)
      requires Valid() && start <= |Rest()|
      ensures k == SpanFrom(Rest(), p, start)
      ensures save + k < buf.Length && (buf[save + k] == NUL <==> k == |Rest()|)
    {
      ghost var rest, tail := Rest(), buf[..][save..];
      k := start;
      AtEnd(tail);
      while buf[save + k] != NUL && p(buf[save + k])
        invariant start <= k <= |rest|
        invariant forall j :: start <= j < k ==> p(rest[j])
        decreases |rest| - k
      {
        assert tail[k] == buf[save + k];
        k := k + 1;
      }
      assert tail[k] == buf[save + k];
      SpanIs(rest, p, start, k);
    }

    /** Ends a token `e` characters on: overwrites the delimiter there and goes past it. */
    method Cut(e: nat)
      requires Valid() && e <= |Rest()|
      modifies this, buf
      ensures Valid() && old(save) + e <= save
      ensures Rest() == if e < |old(Rest())| then old(Rest())[e + 1..] else ""
      ensures old(save) + e < buf.Length && buf[..] == old(buf[..])[old(save) + e := NUL]
    {
      hide CStr;
      ghost var b, tail := buf[..], buf[..][save..];
      AtEnd(tail);
      assert tail[e] == buf[save + e];
      if buf[save + e] == NUL {
        NothingLeft(tail);
        assert b[save + e..] == tail[e..];
        save := save + e;
      } else {
        CutRest(tail, e);
        buf[save + e] := NUL;
        save := save + e + 1;
        assert buf[..][save..] == tail[e + 1..];
      }
    }

    /** Where the next token begins and ends, if there is one. */
    method Find(delims: string) returns (found: bool, a: nat, e: nat)
      requires Valid()
      ensures a <= e <= |Rest()|
      ensures NextToken(Rest(), delims) ==
              if found then (Some(Rest()[a..e]), if e < |Rest()| then Rest()[e + 1..] else "") else (None, "")
      ensures !found ==> e == |Rest()|
    {
      a := Skip(OneOf(delims), 0);
      found, e := buf[save + a] != NUL, a;
      if found {
        e := Skip(NoneOf(delims), a);
      }
    }

    /** The next token as an index into the buffer, cut off by a NUL. */
    method Next(delims: string) returns (token: Option<nat>, ghost cut: nat)
      requires Valid()
      modifies this, buf
      ensures Valid() && old(save) <= save
      ensures Rest() == NextToken(old(Rest()), delims).1
      ensures token.Some? <==> NextToken(old(Rest()), delims).0.Some?
      ensures token.Some? ==>
                var t := NextToken(old(Rest()), delims).0.value;
                && old(save) <= token.value
                && cut == token.value + |t|
                && TokenAt(buf[..], token.value, t)
      ensures old(save) <= cut <= save && cut < buf.Length && buf[..] == old(buf[..])[cut := NUL]
    {
      hide NextToken, TokenAt;
      ghost var was := buf[..];
      var found, a, e := Find(delims);
      token := if found then Some(save + a) else None;
      cut := save + e;
      TokenCut(was, save, a, e);
      Cut(e);
    }
  }

  /** A C string `t` stands in the buffer at `at`. */
  ghost predicate TokenAt(buf: string, at: nat, t: string) {
    at + |t| < |buf| && buf[at..at + |t|] == t && buf[at + |t|] == NUL
  }

  /** A token stays in place when a later cut is made behind it. */
  lemma TokenKept(buf: string, at: nat, t: string, cut: nat)
    requires TokenAt(buf, at, t) && at + |t| <= cut < |buf|
    ensures TokenAt(buf[cut := NUL], at, t)
  {
  }

  lemma TokenCut(was: string, from: nat, a: nat, e: nat)
    requires from <= |was| && NUL in was[from..] && a <= e <= |CStr(was[from..])|
    ensures from + e < |was| && TokenAt(was[from + e := NUL], from + a, CStr(was[from..])[a..e])
  {
    AtEnd(was[from..]);
  }

  lemma NothingLeft(b: string)
    requires NUL in b
    ensures |CStr(b)| < |b| && NUL in b[|CStr(b)|..] && CStr(b[|CStr(b)|..]) == ""
  {
    AtEnd(b);
    var z := b[|CStr(b)|..];
    assert z[0] == NUL;
    CStrIs(z, 0);
  }

  lemma CutRest(b: string, e: nat)
    requires NUL in b && e < |CStr(b)|
    ensures NUL in b[e + 1..] && CStr(b[e + 1..]) == CStr(b)[e + 1..]
  {
    AtEnd(b);
    var z, n := b[e + 1..], |CStr(b)| - e - 1;
    assert z[n] == NUL;
    assert z[..n] == CStr(b)[e + 1..];
    assert NUL !in z[..n] by {
      assert forall k :: 0 <= k < n ==> z[k] == b[e + 1 + k];
    }
    CStrIs(z, n);
  }

  lemma AtEnd(buf: string)
    requires NUL in buf
    ensures |CStr(buf)| < |buf| && buf[|CStr(buf)|] == NUL
    ensures forall k :: 0 <= k < |CStr(buf)| ==> buf[k] == CStr(buf)[k] && buf[k] != NUL
  {
    var t := CStr(buf);
    assert t == buf[..|t|];
    assert forall k :: 0 <= k < |t| ==> t[k] in t;
  }
}
