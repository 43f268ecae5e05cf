/** C strings and character classes, as both programs use them.

    A byte is a `char`, and a C string is the text before the first NUL of the
    buffer that holds it.  The classes are those of the C locale. */
module CText {

  const NUL: char := '\0'
  const NEWLINE: char := '\n'

  predicate IsSpace(c: char) {
    c == ' ' || 9 <= c as int <= 13
  }

  predicate IsDigit(c: char) {
    '0' <= c <= '9'
  }

  predicate IsPrint(c: char) {
    ' ' <= c <= '~'
  }

  predicate IsLower(c: char) {
    'a' <= c <= 'z'
  }

  predicate NotNul(c: char) {
    c != NUL
  }

  predicate NotNewline(c: char) {
    c != NEWLINE
  }

  function ToUpper(c: char): (u: char)
    ensures !IsLower(u)
    ensures IsPrint(c) ==> IsPrint(u)
    ensures IsSpace(u) == IsSpace(c) && (u == NUL <==> c == NUL) && IsDigit(u) == IsDigit(c)
  {
    if IsLower(c) then (c as int - 32) as char else c
  }

  function Upper(s: string): (u: string)
    ensures |u| == |s|
    ensures forall i {:trigger u[i]} :: 0 <= i < |s| ==> u[i] == ToUpper(s[i])
  {
    seq(|s|, i requires 0 <= i < |s| => ToUpper(s[i]))
  }

  /** The first position from `i` on whose character does not satisfy `p`. */
  function SpanFrom(s: string, p: char -> bool, i: nat): (n: nat)
    requires i <= |s|
    ensures i <= n <= |s|
    decreases |s| - i
  {
    if i < |s| && p(s[i]) then SpanFrom(s, p, i + 1) else i
  }

  /** How many characters at the start of `s` satisfy `p`. */
  function Span(s: string, p: char -> bool): (n: nat)
    ensures n <= |s|
  {
    SpanFrom(s, p, 0)
  }

  lemma {:induction false} SpanIs(s: string, p: char -> bool, i: nat, n: nat)
    requires i <= n <= |s|
    requires forall j :: i <= j < n ==> p(s[j])
    requires n < |s| ==> !p(s[n])
    ensures SpanFrom(s, p, i) == n
    decreases n - i
  {
    if i < n {
      SpanIs(s, p, i + 1, n);
    }
  }

  lemma {:induction false} SpanFacts(s: string, p: char -> bool, i: nat)
    requires i <= |s|
    ensures forall j :: i <= j < SpanFrom(s, p, i) ==> p(s[j])
    ensures SpanFrom(s, p, i) < |s| ==> !p(s[SpanFrom(s, p, i)])
    decreases |s| - i
  {
    if i < |s| && p(s[i]) {
      SpanFacts(s, p, i + 1);
    }
  }

  /** Cutting a text cuts each of its spans at the same place. */
  lemma SpanOfPrefix(s: string, p: char -> bool, i: nat, n: nat)
    requires i <= n <= |s|
    ensures SpanFrom(s[..n], p, i) == if SpanFrom(s, p, i) < n then SpanFrom(s, p, i) else n
  {
    SpanFacts(s, p, i);
    SpanIs(s[..n], p, i, if SpanFrom(s, p, i) < n then SpanFrom(s, p, i) else n);
  }

  lemma SpanOfSuffix(s: string, p: char -> bool, i: nat, k: nat)
    requires i <= k <= |s|
    ensures SpanFrom(s[i..], p, k - i) == SpanFrom(s, p, k) - i
  {
    SpanFacts(s, p, k);
    SpanIs(s[i..], p, k - i, SpanFrom(s, p, k) - i);
  }

  lemma SliceOfSuffix(s: string, i: nat, j: nat, k: nat)
    requires i <= j <= k <= |s|
    ensures s[i..][j - i..k - i] == s[j..k] && s[i..][j - i..] == s[j..]
  {
  }

  /** A span that starts where `y` starts stays in `y`. */
  lemma SpanAfter(x: string, y: string, p: char -> bool)
    ensures SpanFrom(x + y, p, |x|) == |x| + Span(y, p)
  {
    SpanOfSuffix(x + y, p, |x|, |x|);
    assert (x + y)[|x|..] == y;
  }

  lemma {:induction false} SpanSkip(s: string, p: char -> bool, i: nat, k: nat)
    requires i <= k <= |s| && forall j :: i <= j < k ==> p(s[j])
    ensures SpanFrom(s, p, i) == SpanFrom(s, p, k)
    decreases k - i
  {
    if i < k {
      SpanSkip(s, p, i + 1, k);
    }
  }

  lemma SpanAppend(x: string, y: string, p: char -> bool)
    requires forall i :: 0 <= i < |x| ==> p(x[i])
    ensures Span(x + y, p) == |x| + Span(y, p)
  {
    SpanSkip(x + y, p, 0, |x|);
    SpanAfter(x, y, p);
  }

  /** A sequence cut to at most `n` items. */
  function First<T>(s: seq<T>, n: nat): (r: seq<T>)
    ensures r <= s && |r| <= n
    ensures |s| <= n ==> r == s
    ensures |s| > n ==> |r| == n
  {
    if |s| <= n then s else s[..n]
  }

  /** The C string held by a buffer. */
  function CStr(buf: string): (s: string)
    ensures s <= buf && NUL !in s
    ensures |s| < |buf| ==> buf[|s|] == NUL
  {
    SpanFacts(buf, NotNul, 0);
    buf[..Span(buf, NotNul)]
  }

  lemma CStrIs(buf: string, n: nat)
    requires n <= |buf| && NUL !in buf[..n]
    requires n < |buf| ==> buf[n] == NUL
    ensures CStr(buf) == buf[..n]
  {
    forall i | 0 <= i < n ensures NotNul(buf[i]) {
      assert buf[i] == buf[..n][i];
    }
    SpanIs(buf, NotNul, 0, n);
  }

  /** The strings one after the other. */
  function Concat(ss: seq<string>): string {
    if ss == [] then "" else ss[0] + Concat(ss[1..])
  }

  lemma ConcatTwo(x: string, y: string)
    ensures Concat([x, y]) == x + y
  {
    assert [x, y][1..] == [y];
    assert Concat([y]) == y + "";
  }

  /** What `snprintf` leaves of `text` in a buffer of `size` bytes. */
  function Snprintf(size: nat, text: string): (s: string)
    requires size > 0
    ensures s <= text && |s| < size
    ensures s == text <==> |text| < size
  {
    First(text, size - 1)
  }

  lemma UpperAppend(x: string, y: string)
    ensures Upper(x + y) == Upper(x) + Upper(y)
  {
  }

  lemma UpperFixed(s: string)
    ensures Upper(s) == s <==> forall i :: 0 <= i < |s| ==> !IsLower(s[i])
    ensures Upper(Upper(s)) == Upper(s)
  {
    if Upper(s) == s {
      forall i | 0 <= i < |s| ensures !IsLower(s[i]) {
        assert Upper(s)[i] == ToUpper(s[i]);
      }
    }
  }

  // ----- The classes by their characters -----

  const SMALL: string := "abcdefghijklmnopqrstuvwxyz"
  const CAPITAL: string := "ABCDEFGHIJKLMNOPQRSTUVWXYZ"
  const NUMERALS: string := "0123456789"

  /** The classes of the C locale: what each is made of. */
  lemma ClassesExact(c: char)
    ensures IsSpace(c) <==> c == ' ' || c == '\t' || c == '\n' || c as int == 11 || c as int == 12 || c == '\r'
    ensures IsDigit(c) <==> exists i :: 0 <= i < 10 && NUMERALS[i] == c
    ensures IsLower(c) <==> exists i :: 0 <= i < 26 && SMALL[i] == c
    ensures IsPrint(c) <==> 32 <= c as int < 127
  {
    Alphabet();
    if IsLower(c) {
      assert SMALL[c as int - 97] == c;
    }
    if IsDigit(c) {
      assert NUMERALS[c as int - 48] == c;
    }
  }

  /** The alphabets are in the order of the character codes. */
  lemma Alphabet()
    ensures forall i :: 0 <= i < 26 ==> SMALL[i] as int == 97 + i && CAPITAL[i] as int == 65 + i
    ensures forall i :: 0 <= i < 10 ==> NUMERALS[i] as int == 48 + i
  {
  }

  /** Each small letter becomes the capital at its place in the alphabet; nothing else changes. */
  lemma ToUpperExact(c: char)
    ensures forall i :: 0 <= i < 26 && SMALL[i] == c ==> ToUpper(c) == CAPITAL[i]
    ensures (forall i :: 0 <= i < 26 ==> SMALL[i] != c) ==> ToUpper(c) == c
  {
    Alphabet();
    if IsLower(c) {
      assert SMALL[c as int - 97] == c;
    }
  }

  /** The same letter, small or capital, or the same character. */
  predicate SameLetter(c: char, d: char) {
    c == d || exists i :: 0 <= i < 26 && c in [SMALL[i], CAPITAL[i]] && d in [SMALL[i], CAPITAL[i]]
  }

  predicate SameLetters(x: string, y: string) {
    |x| == |y| && forall i :: 0 <= i < |x| ==> SameLetter(x[i], y[i])
  }

  lemma SameLetterExact(c: char, d: char)
    ensures ToUpper(c) == ToUpper(d) <==> SameLetter(c, d)
  {
    Alphabet();
    if ToUpper(c) == ToUpper(d) && c != d {
      var i := ToUpper(c) as int - 65;
      assert c in [SMALL[i], CAPITAL[i]] && d in [SMALL[i], CAPITAL[i]];
    }
  }

  /** Upper-casing makes two texts equal exactly when they agree letter by letter. */
  lemma UpperExact(x: string, y: string)
    ensures Upper(x) == Upper(y) <==> SameLetters(x, y)
  {
    hide ToUpper, SameLetter;
    if |x| == |y| {
      forall i | 0 <= i < |x| ensures Upper(x)[i] == Upper(y)[i] <==> SameLetter(x[i], y[i]) {
        SameLetterExact(x[i], y[i]);
      }
    }
  }
}
