/** Characters, numerals, substrings, line splitting and lexicographic order,
    as Python's `str`, `int()`, `str()`, `in` and text-file iteration see them. */
module Text {

  /** `\d` restricted to ASCII; Python's `\d` on `str` also takes the other
      Unicode decimal digits, which this model does not. */
  predicate IsDigit(c: char) { '0' <= c <= '9' }

  /** `\s` restricted to ASCII: space, \t \n \v \f \r and the separators \x1c-\x1f.
      Python's `\s` on `str` also takes the other Unicode spaces (U+0085,
      U+00A0, ...), which this model reads as `\S`. */
  predicate IsSpace(c: char) { c == ' ' || '\t' <= c <= '\r' || '\U{1C}' <= c <= '\U{1F}' }

  predicate AllDigits(s: string) { forall i :: 0 <= i < |s| ==> IsDigit(s[i]) }

  /** A non-empty run of ASCII digits: what `\d+` matches and `str.isnumeric`
      accepts in this model (both take more in Python, see `IsDigit`). */
  predicate IsNumeral(s: string) { |s| > 0 && AllDigits(s) }

  function DigitValue(c: char): nat
    requires IsDigit(c)
  {
    c as int - '0' as int
  }

  /** `int(s)` for a string of digits. */
  function DigitsValue(s: string): nat
    requires AllDigits(s)
    decreases |s|
  {
    if s == [] then 0 else DigitsValue(s[..|s| - 1]) * 10 + DigitValue(s[|s| - 1])
  }

  function DigitChar(d: nat): (c: char)
    requires d < 10
    ensures IsDigit(c) && DigitValue(c) == d
  {
    ('0' as int + d) as char
  }

  /** `str(n)` for a natural number: decimal, without leading zeros. */
  function NatToString(n: nat): (r: string)
    ensures IsNumeral(r)
    ensures DigitsValue(r) == n
    ensures r[0] == '0' <==> n == 0
    ensures n == 0 ==> r == "0"
    decreases n
  {
    if n < 10 then [DigitChar(n)]
    else
      var p := NatToString(n / 10);
      var r := p + [DigitChar(n % 10)];
      assert r[..|r| - 1] == p;
      r
  }

  /** `p` occurs in `s` at position `i`. */
  predicate OccursAt(s: string, i: nat, p: string) {
    i + |p| <= |s| && s[i..i + |p|] == p
  }

  /** Python's `p in s` for strings. */
  predicate Contains(s: string, p: string) {
    exists i: nat | i <= |s| :: OccursAt(s, i, p)
  }

  predicate StartsWith(s: string, p: string) { OccursAt(s, 0, p) }

  /** Length of the longest run of characters satisfying `p` that starts at `i`:
      what a greedy `[...]+`-style loop consumes. */
  function RunLength(s: string, i: nat, p: char -> bool): (n: nat)
    requires i <= |s|
    ensures i + n <= |s|
    ensures forall j :: i <= j < i + n ==> p(s[j])
    ensures i + n == |s| || !p(s[i + n])
    decreases |s| - i
  {
    if i == |s| || !p(s[i]) then 0 else 1 + RunLength(s, i + 1, p)
  }

  /** A run of exactly `n` such characters, ended by one that is not, is the run. */
  lemma RunLengthExact(s: string, i: nat, p: char -> bool, n: nat)
    requires i + n <= |s|
    requires forall j :: i <= j < i + n ==> p(s[j])
    requires i + n == |s| || !p(s[i + n])
    ensures RunLength(s, i, p) == n
  {
    var r := RunLength(s, i, p);
    assert r <= n by {
      if i + n < |s| { assert !p(s[i + n]); }
    }
  }

  /** `"".join(ss)`. */
  function Concat(ss: seq<string>): string {
    if ss == [] then "" else ss[0] + Concat(ss[1..])
  }

  lemma {:induction false} ConcatAppend(a: seq<string>, b: seq<string>)
    ensures Concat(a + b) == Concat(a) + Concat(b)
  {
    if a != [] {
      assert (a + b)[1..] == a[1..] + b;
      ConcatAppend(a[1..], b);
    } else {
      assert a + b == b;
    }
  }

  /** One line as a text file opened in universal-newline mode can yield it:
      ended by its only line break, a "\n". No '\r' stays in such a line, since
      a '\r' alone or in "\r\n" ends the line and is read as "\n". */
  predicate IsLine(l: string) {
    |l| > 0 && l[|l| - 1] == '\n' && forall j :: 0 <= j < |l| - 1 ==> l[j] != '\n' && l[j] != '\r'
  }

  /** No carriage return: the text universal-newline reading splits at "\n" only. */
  predicate NoReturn(s: string) { forall j :: 0 <= j < |s| ==> s[j] != '\r' }

  /** Index of the first "\n" in `s`, or `|s|` when there is none. */
  function FirstNewline(s: string): (k: nat)
    ensures k <= |s|
    ensures forall j :: 0 <= j < k ==> s[j] != '\n'
    ensures k < |s| ==> s[k] == '\n'
  {
    if s == "" || s[0] == '\n' then 0 else 1 + FirstNewline(s[1..])
  }

  /** The text split after each "\n" (newlines kept, the last line possibly
      unterminated). On a text with `NoReturn` this is what `for line in f`
      yields in universal-newline mode; on other texts it is not, since that
      mode also ends a line at '\r' and reads "\r" and "\r\n" as "\n". */
  function Lines(s: string): (r: seq<string>)
    ensures forall i :: 0 <= i < |r| ==> |r[i]| > 0
    decreases |s|
  {
    if s == "" then []
    else
      var k := FirstNewline(s);
      if k == |s| then [s] else [s[..k + 1]] + Lines(s[k + 1..])
  }

  /** Text made of lines holds no carriage return. */
  lemma {:induction false} ConcatNoReturn(ls: seq<string>)
    requires forall i :: 0 <= i < |ls| ==> IsLine(ls[i])
    ensures NoReturn(Concat(ls))
  {
    if ls != [] {
      ConcatNoReturn(ls[1..]);
      var c, r := Concat(ls), Concat(ls[1..]);
      assert c == ls[0] + r;
      forall j | 0 <= j < |c| ensures c[j] != '\r' {
        if j >= |ls[0]| { assert c[j] == r[j - |ls[0]|]; }
      }
    }
  }

  /** Writing a sequence of lines and reading the text back yields the same lines. */
  lemma {:induction false} LinesOfConcat(ls: seq<string>)
    requires forall i :: 0 <= i < |ls| ==> IsLine(ls[i])
    ensures Lines(Concat(ls)) == ls
  {
    if ls != [] {
      var l, rest := ls[0], Concat(ls[1..]);
      var s := l + rest;
      assert Concat(ls) == s;
      assert FirstNewline(s) == |l| - 1 by {
        FirstNewlineOfLine(l, rest);
      }
      assert s[..|l|] == l;
      assert s[|l|..] == rest;
      LinesOfConcat(ls[1..]);
      assert [l] + ls[1..] == ls;
    }
  }

  lemma {:induction false} FirstNewlineOfLine(l: string, rest: string)
    requires IsLine(l)
    ensures FirstNewline(l + rest) == |l| - 1
    decreases |l|
  {
    if |l| > 1 {
      assert (l + rest)[1..] == l[1..] + rest;
      FirstNewlineOfLine(l[1..], rest);
    }
  }

  /** Python's `<=` on strings: code-point lexicographic order. */
  predicate LexLe(a: string, b: string)
    decreases |a|
  {
    a == [] || (b != [] && (a[0] < b[0] || (a[0] == b[0] && LexLe(a[1..], b[1..]))))
  }

  lemma {:induction false} LexLeTotal(a: string, b: string)
    ensures LexLe(a, b) || LexLe(b, a)
    decreases |a|
  {
    if a != [] && b != [] && a[0] == b[0] {
      LexLeTotal(a[1..], b[1..]);
    }
  }

  lemma {:induction false} LexLeAntisymmetric(a: string, b: string)
    requires LexLe(a, b) && LexLe(b, a)
    ensures a == b
    decreases |a|
  {
    if a != [] {
      LexLeAntisymmetric(a[1..], b[1..]);
      assert a == [a[0]] + a[1..] && b == [b[0]] + b[1..];
    }
  }

  lemma {:induction false} LexLeTransitive(a: string, b: string, c: string)
    requires LexLe(a, b) && LexLe(b, c)
    ensures LexLe(a, c)
    decreases |a|
  {
    if a != [] && a[0] == b[0] && b[0] == c[0] {
      LexLeTransitive(a[1..], b[1..], c[1..]);
    }
  }

  /** A text file opened for writing: the strings written, in order. */
  class TextOut {
    var writes: seq<string>

    constructor()
      ensures writes == []
    {
      writes := [];
    }

    /** `out.write(s)`. */
    method Write(s: string)
      modifies this
      ensures writes == old(writes) + [s]
    {
      writes := writes + [s];
    }
  }
}
