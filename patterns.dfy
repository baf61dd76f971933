/** The five fixed regular expressions of the dump format, as explicit matchers
    that follow Python's `re` matching order for them (greedy runs, the optional
    group tried first, `$` matching at the end or before a final "\n", `search`
    taking the leftmost position at which the whole pattern matches). The
    character classes `\d`, `\s` and `\S` are read as ASCII (see `Text.IsDigit`
    and `Text.IsSpace`), where Python's `str` patterns also take Unicode digits
    and spaces: on a non-ASCII digit or space these matchers can differ. */
module Patterns {
  import opened Outcomes
  import opened Text

  predicate IsToken(c: char) { !IsSpace(c) }
  predicate NotColon(c: char) { c != ':' }
  predicate NotNewline(c: char) { c != '\n' }

  /** Python's `$` without MULTILINE: at the end, or just before a final "\n". */
  predicate AtEnd(s: string, p: nat) {
    p == |s| || (p + 1 == |s| && s[p] == '\n')
  }

  /** The leftmost position in [i, n] at which `f` matches. */
  function FirstMatch<T>(f: nat -> Option<T>, i: nat, n: nat): (r: Option<nat>)
    ensures r.Some? ==> i <= r.value <= n && f(r.value).Some?
    ensures r.Some? ==> forall k :: i <= k < r.value ==> f(k).None?
    ensures r.None? ==> forall k :: i <= k <= n ==> f(k).None?
    decreases n - i
  {
    if i > n then None
    else if f(i).Some? then Some(i)
    else FirstMatch(f, i + 1, n)
  }

  /** `pattern.search(line)` for a pattern whose attempt at position i is `f(i)`. */
  function Search<T>(f: nat -> Option<T>, n: nat): Option<T> {
    match FirstMatch(f, 0, n)
    case Some(p) => f(p)
    case None => None
  }

  lemma SearchAt<T>(f: nat -> Option<T>, n: nat, p: nat)
    requires p <= n && f(p).Some?
    requires forall k :: 0 <= k < p ==> f(k).None?
    ensures Search(f, n) == f(p)
  {
    assert FirstMatch(f, 0, n).Some?;
  }

  // ---------------------------------------------------------------------------
  // `^---- TRACE (?:(\d+ )?(\S+))`, applied with `match` (dumpparser.py:56, 99-101)

  const TracePrefix := "---- TRACE "

  /** The trace id (`int(group(1) or 0)`) and the state token (`group(2)`). */
  datatype HeaderMatch = HeaderMatch(id: nat, token: string)

  /** The pattern after its literal prefix: the id group, tried first, then the token. */
  function HeaderBody(t: string): (r: Option<HeaderMatch>)
    ensures r.Some? <==> |t| > 0 && IsToken(t[0])
    ensures r.Some? ==> |r.value.token| > 0 && forall k :: 0 <= k < |r.value.token| ==> IsToken(r.value.token[k])
  {
    var d := RunLength(t, 0, IsDigit);
    if d > 0 && d < |t| && t[d] == ' ' && RunLength(t, d + 1, IsToken) > 0 then
      Some(HeaderMatch(DigitsValue(t[..d]), t[d + 1..d + 1 + RunLength(t, d + 1, IsToken)]))
    else
      var k := RunLength(t, 0, IsToken);
      if k > 0 then Some(HeaderMatch(0, t[..k])) else None
  }

  function MatchHeader(line: string): (r: Option<HeaderMatch>)
    ensures r.Some? <==> StartsWith(line, TracePrefix) && |line| > |TracePrefix| && IsToken(line[|TracePrefix|])
    ensures r.Some? ==> |r.value.token| > 0 && forall k :: 0 <= k < |r.value.token| ==> IsToken(r.value.token[k])
  {
    if !StartsWith(line, TracePrefix) then None else HeaderBody(line[|TracePrefix|..])
  }

  // ---------------------------------------------------------------------------
  // ` start (?:((\d+)/(\d+)) )?([^:]+):(\d+)$` (trace.py:33)

  /** Group 1 (the text "P/S"), group 2 (P) and group 3 (S). */
  datatype ParentRef = ParentRef(text: string, id: nat, side: nat)

  datatype StartFields = StartFields(parent: Option<ParentRef>, file: string, line: nat)

  /** `((\d+)/(\d+)) ` at the start of `t`: the parent reference and the
      number of characters it takes, the space included. */
  function ParentHead(t: string): Option<(ParentRef, nat)> {
    var a := RunLength(t, 0, IsDigit);
    if a == 0 || a == |t| || t[a] != '/' then None
    else
      var b := RunLength(t, a + 1, IsDigit);
      if b == 0 || a + 1 + b == |t| || t[a + 1 + b] != ' ' then None
      else Some((ParentRef(t[..a + 1 + b], DigitsValue(t[..a]), DigitsValue(t[a + 1..a + 1 + b])), a + b + 2))
  }

  /** `([^:]+):(\d+)$` over all of `t`: the file (group 4) and the line (group 5). */
  function FileLineAll(t: string): (r: Option<(string, nat)>)
    ensures r.Some? ==> |r.value.0| > 0 && forall k :: 0 <= k < |r.value.0| ==> r.value.0[k] != ':'
  {
    var f := RunLength(t, 0, NotColon);
    if f == 0 || f == |t| then None
    else
      var d := RunLength(t, f + 1, IsDigit);
      if d > 0 && AtEnd(t, f + 1 + d) then Some((t[..f], DigitsValue(t[f + 1..f + 1 + d])))
      else None
  }

  /** The pattern tried at `i`: the optional parent group first, and without
      it when the rest of the pattern fails after it. */
  function StartAt(s: string, i: nat): (r: Option<StartFields>)
    ensures r.Some? ==> |r.value.file| > 0 && forall k :: 0 <= k < |r.value.file| ==> r.value.file[k] != ':'
  {
    if !OccursAt(s, i, " start ") then None
    else
      var t := s[i + 7..];
      var g := ParentHead(t);
      if g.Some? && g.value.1 <= |t| && FileLineAll(t[g.value.1..]).Some? then
        var fl := FileLineAll(t[g.value.1..]).value;
        Some(StartFields(Some(g.value.0), fl.0, fl.1))
      else match FileLineAll(t)
        case Some(fl) => Some(StartFields(None, fl.0, fl.1))
        case None => None
  }

  function SearchStart(s: string): Option<StartFields> {
    Search(i => StartAt(s, i), |s|)
  }

  /** The file a start header yields is not empty and holds no colon. */
  lemma SearchStartFile(s: string)
    requires SearchStart(s).Some?
    ensures |SearchStart(s).value.file| > 0
    ensures forall k :: 0 <= k < |SearchStart(s).value.file| ==> SearchStart(s).value.file[k] != ':'
  {
    var p := FirstMatch(i => StartAt(s, i), 0, |s|).value;
    assert SearchStart(s) == StartAt(s, p);
  }

  // ---------------------------------------------------------------------------
  // ` mcode (\d+)$` (trace.py:34)

  /** `(\d+)$` over all of `t`. */
  function SizeAll(t: string): Option<nat> {
    var d := RunLength(t, 0, IsDigit);
    if d > 0 && AtEnd(t, d) then Some(DigitsValue(t[..d])) else None
  }

  function McodeAt(s: string, i: nat): Option<nat> {
    if !OccursAt(s, i, " mcode ") then None else SizeAll(s[i + 7..])
  }

  function SearchMcode(s: string): Option<nat> {
    Search(i => McodeAt(s, i), |s|)
  }

  // ---------------------------------------------------------------------------
  // ` stop -> (.+)$` (trace.py:35)

  /** `(.+)$` over all of `t`. */
  function LinkAll(t: string): (r: Option<string>)
    ensures r.Some? ==> |r.value| > 0 && forall k :: 0 <= k < |r.value| ==> r.value[k] != '\n'
  {
    var n := RunLength(t, 0, NotNewline);
    if n > 0 && AtEnd(t, n) then Some(t[..n]) else None
  }

  function StopAt(s: string, i: nat): (r: Option<string>)
    ensures r.Some? ==> |r.value| > 0 && forall k :: 0 <= k < |r.value| ==> r.value[k] != '\n'
  {
    if !OccursAt(s, i, " stop -> ") then None else LinkAll(s[i + 9..])
  }

  function SearchStop(s: string): (r: Option<string>)
    ensures r.Some? ==> |r.value| > 0 && forall k :: 0 <= k < |r.value| ==> r.value[k] != '\n'
  {
    Search(i => StopAt(s, i), |s|)
  }

  // ---------------------------------------------------------------------------
  // `->(\d+)` (trace.py:38)

  function ArrowAt(s: string, i: nat): Option<nat> {
    if !OccursAt(s, i, "->") then None
    else
      var d := RunLength(s, i + 2, IsDigit);
      if d > 0 then Some(DigitsValue(s[i + 2..i + 2 + d])) else None
  }

  function SearchArrow(s: string): Option<nat> {
    Search(i => ArrowAt(s, i), |s|)
  }
}

/** What the matchers yield on the header lines the text view writes: the
    facts the render/re-parse round trip rests on. */
module PatternFacts {
  import opened Outcomes
  import opened Text
  import opened Patterns

  /** On `"---- TRACE " + digits + rest`, no keyword " x..." with a lower-case
      `x` occurs before the end of the digits. */
  lemma NoEarlyKeyword(ds: string, rest: string, p: string, i: nat)
    requires IsNumeral(ds)
    requires |p| >= 2 && p[0] == ' ' && 'a' <= p[1] <= 'z'
    requires i < |TracePrefix| + |ds|
    ensures !OccursAt(TracePrefix + ds + rest, i, p)
  {
    var s := TracePrefix + ds + rest;
    if i + |p| <= |s| {
      var w := s[i..i + |p|];
      assert w[0] == s[i] && w[1] == s[i + 1];
      if i < |TracePrefix| - 1 {
        assert s[i] == TracePrefix[i] && s[i + 1] == TracePrefix[i + 1];
      } else if i == |TracePrefix| - 1 {
        assert s[i + 1] == ds[0];
      } else {
        assert s[i] == ds[i - |TracePrefix|];
      }
    }
  }

  /** A header written as `"---- TRACE <n> <keyword>..."` is recognised with id
      `n` and state token `keyword`. */
  lemma {:induction false} MatchHeaderWithId(n: nat, kw: string, tail: string)
    requires |kw| > 0 && forall k :: 0 <= k < |kw| ==> IsToken(kw[k])
    requires tail == "" || !IsToken(tail[0])
    ensures MatchHeader(TracePrefix + NatToString(n) + " " + kw + tail) == Some(HeaderMatch(n, kw))
  {
    var t := NatToString(n) + " " + kw + tail;
    var s := TracePrefix + t;
    assert TracePrefix + NatToString(n) + " " + kw + tail == s;
    assert s[..|TracePrefix|] == TracePrefix && s[|TracePrefix|..] == t;
    HeaderBodyWithId(NatToString(n), kw, tail);
  }

  lemma HeaderBodyWithId(ds: string, kw: string, tail: string)
    requires IsNumeral(ds)
    requires |kw| > 0 && forall k :: 0 <= k < |kw| ==> IsToken(kw[k])
    requires tail == "" || !IsToken(tail[0])
    ensures HeaderBody(ds + " " + kw + tail) == Some(HeaderMatch(DigitsValue(ds), kw))
  {
    var t := ds + " " + kw + tail;
    forall k | 0 <= k < |ds| ensures IsDigit(t[k]) {
      assert t[k] == ds[k];
    }
    assert t[|ds|] == ' ';
    RunLengthExact(t, 0, IsDigit, |ds|);
    var b := |ds| + 1;
    forall k | b <= k < b + |kw| ensures IsToken(t[k]) {
      assert t[k] == kw[k - b];
    }
    assert b + |kw| == |t| || t[b + |kw|] == tail[0];
    RunLengthExact(t, b, IsToken, |kw|);
    assert t[..|ds|] == ds;
    assert t[b..b + |kw|] == kw;
  }

  /** `"---- TRACE flush"` and other id-less headers are recognised with id 0. */
  lemma {:induction false} MatchHeaderWithoutId(kw: string, tail: string)
    requires |kw| > 0 && !IsDigit(kw[0]) && forall k :: 0 <= k < |kw| ==> IsToken(kw[k])
    requires tail == "" || !IsToken(tail[0])
    ensures MatchHeader(TracePrefix + kw + tail) == Some(HeaderMatch(0, kw))
  {
    var t := kw + tail;
    var s := TracePrefix + t;
    assert TracePrefix + kw + tail == s;
    assert s[..|TracePrefix|] == TracePrefix && s[|TracePrefix|..] == t;
    RunLengthExact(t, 0, IsDigit, 0);
    forall k | 0 <= k < |kw| ensures IsToken(t[k]) {
      assert t[k] == kw[k];
    }
    assert |kw| == |t| || t[|kw|] == tail[0];
    RunLengthExact(t, 0, IsToken, |kw|);
    assert t[..|kw|] == kw;
  }

  /** On `"---- TRACE " + ds + kw + rest`, with `kw` a keyword " x...",
      the keyword is found right after the id and `rest` is what follows it. */
  lemma KeywordAfterId(ds: string, kw: string, rest: string)
    requires IsNumeral(ds) && |kw| >= 2 && kw[0] == ' ' && 'a' <= kw[1] <= 'z'
    ensures var s := TracePrefix + ds + kw + rest;
      && OccursAt(s, |TracePrefix| + |ds|, kw)
      && s[|TracePrefix| + |ds| + |kw|..] == rest
      && forall k :: 0 <= k < |TracePrefix| + |ds| ==> !OccursAt(s, k, kw)
  {
    var s := TracePrefix + ds + kw + rest;
    var p := |TracePrefix| + |ds|;
    assert s == TracePrefix + ds + (kw + rest);
    assert s[p..p + |kw|] == kw;
    assert s[p + |kw|..] == rest;
    forall k | 0 <= k < p ensures !OccursAt(s, k, kw) {
      NoEarlyKeyword(ds, kw + rest, kw, k);
    }
  }

  /** `(\d+)$` on a written "SIZE\n". */
  lemma SizeAllOf(size: nat)
    ensures SizeAll(NatToString(size) + "\n") == Some(size)
  {
    var zs := NatToString(size);
    var t := zs + "\n";
    forall k | 0 <= k < |zs| ensures IsDigit(t[k]) {
      assert t[k] == zs[k];
    }
    RunLengthExact(t, 0, IsDigit, |zs|);
    assert t[..|zs|] == zs;
  }

  /** `(.+)$` on a written "LINK\n". */
  lemma LinkAllOf(link: string)
    requires |link| > 0 && forall k :: 0 <= k < |link| ==> link[k] != '\n'
    ensures LinkAll(link + "\n") == Some(link)
  {
    var t := link + "\n";
    forall k | 0 <= k < |link| ensures NotNewline(t[k]) {
      assert t[k] == link[k];
    }
    RunLengthExact(t, 0, NotNewline, |link|);
    assert t[..|link|] == link;
  }

  /** The mcode header as written yields its size. */
  lemma {:induction false} SearchMcodeRendered(n: nat, size: nat)
    ensures SearchMcode(TracePrefix + NatToString(n) + " mcode " + NatToString(size) + "\n") == Some(size)
  {
    var ds := NatToString(n);
    var rest := NatToString(size) + "\n";
    var s := TracePrefix + ds + " mcode " + rest;
    assert TracePrefix + NatToString(n) + " mcode " + NatToString(size) + "\n" == s;
    var p := |TracePrefix| + |ds|;
    KeywordAfterId(ds, " mcode ", rest);
    SizeAllOf(size);
    assert McodeAt(s, p) == Some(size);
    SearchAt(i => McodeAt(s, i), |s|, p);
  }

  /** The stop header as written yields its link type. */
  lemma {:induction false} SearchStopRendered(n: nat, link: string)
    requires |link| > 0 && forall k :: 0 <= k < |link| ==> link[k] != '\n'
    ensures SearchStop(TracePrefix + NatToString(n) + " stop -> " + link + "\n") == Some(link)
  {
    var ds := NatToString(n);
    var rest := link + "\n";
    var s := TracePrefix + ds + " stop -> " + rest;
    assert TracePrefix + NatToString(n) + " stop -> " + link + "\n" == s;
    var p := |TracePrefix| + |ds|;
    KeywordAfterId(ds, " stop -> ", rest);
    LinkAllOf(link);
    assert StopAt(s, p) == Some(link);
    SearchAt(i => StopAt(s, i), |s|, p);
  }

  /** When `t` opens with "P/S ", ParentHead reads it. */
  lemma ParentHeadIs(t: string, a: nat, b: nat)
    requires 0 < a && 0 < b && a + 1 + b < |t|
    requires forall k :: 0 <= k < a ==> IsDigit(t[k])
    requires t[a] == '/'
    requires forall k :: a + 1 <= k < a + 1 + b ==> IsDigit(t[k])
    requires t[a + 1 + b] == ' '
    ensures ParentHead(t) == Some((ParentRef(t[..a + 1 + b], DigitsValue(t[..a]),
                                             DigitsValue(t[a + 1..a + 1 + b])), a + b + 2))
  {
    RunLengthExact(t, 0, IsDigit, a);
    RunLengthExact(t, a + 1, IsDigit, b);
  }

  /** When `t` is "FILE:LINE" up to the end, FileLineAll reads it. */
  lemma FileLineAllIs(t: string, f: nat, d: nat)
    requires 0 < f && 0 < d && f + 1 + d <= |t|
    requires forall i :: 0 <= i < f ==> t[i] != ':'
    requires t[f] == ':'
    requires forall i :: f + 1 <= i < f + 1 + d ==> IsDigit(t[i])
    requires AtEnd(t, f + 1 + d)
    ensures FileLineAll(t) == Some((t[..f], DigitsValue(t[f + 1..f + 1 + d])))
  {
    RunLengthExact(t, 0, NotColon, f);
    var e := f + 1 + d;
    assert e == |t| || !IsDigit(t[e]);
    RunLengthExact(t, f + 1, IsDigit, d);
  }

  /** `((\d+)/(\d+)) ` on a written parent reference "P/S ". */
  lemma {:induction false} ParentHeadOf(d1: string, d2: string, y: string)
    requires IsNumeral(d1) && IsNumeral(d2)
    ensures ParentHead(d1 + "/" + d2 + " " + y)
         == Some((ParentRef(d1 + "/" + d2, DigitsValue(d1), DigitsValue(d2)), |d1| + |d2| + 2))
  {
    var u := d1 + "/" + d2;
    var t := u + " " + y;
    assert t == d1 + "/" + d2 + " " + y;
    var a, b := |d1|, |d2|;
    forall k | 0 <= k < a ensures IsDigit(t[k]) {
      assert t[k] == u[k] == d1[k];
    }
    assert t[a] == u[a] == '/';
    forall k | a + 1 <= k < a + 1 + b ensures IsDigit(t[k]) {
      assert t[k] == u[k] == d2[k - a - 1];
    }
    assert t[a + 1 + b] == ' ';
    ParentHeadIs(t, a, b);
    assert t[..a + 1 + b] == u;
    assert t[..a] == d1 by { assert u[..a] == d1; }
    assert t[a + 1..a + 1 + b] == d2 by { assert u[a + 1..] == d2; }
  }

  /** `([^:]+):(\d+)$` on a written "FILE:LINE\n". */
  lemma {:induction false} FileLineAllOf(f: string, ln: nat)
    requires |f| > 0 && forall k :: 0 <= k < |f| ==> f[k] != ':'
    ensures FileLineAll(f + ":" + NatToString(ln) + "\n") == Some((f, ln))
  {
    var ls := NatToString(ln);
    var t := f + ":" + ls + "\n";
    forall k | 0 <= k < |f| ensures t[k] != ':' {
      assert t[k] == f[k];
    }
    assert t[|f|] == ':';
    var j := |f| + 1;
    forall k | j <= k < j + |ls| ensures IsDigit(t[k]) {
      assert t[k] == ls[k - j];
    }
    assert t[j + |ls|] == '\n';
    FileLineAllIs(t, |f|, |ls|);
    assert t[..|f|] == f;
    assert t[j..j + |ls|] == ls;
  }

  /** The text after " start " would not be read as carrying a parent
      reference: the optional group fails, or the rest of the pattern fails
      after it. */
  predicate NoParentGroup(rest: string) {
    match ParentHead(rest)
    case None => true
    case Some(g) => g.1 > |rest| || FileLineAll(rest[g.1..]).None?
  }

  lemma NoStartBefore(ds: string, rest: string, k: nat)
    requires IsNumeral(ds) && k < |TracePrefix| + |ds|
    ensures StartAt(TracePrefix + ds + " start " + rest, k).None?
  {
    var s := TracePrefix + ds + " start " + rest;
    assert s == TracePrefix + ds + (" start " + rest);
    NoEarlyKeyword(ds, " start " + rest, " start ", k);
  }

  /** On a start header as written, `search` settles at the keyword after the id. */
  lemma {:induction false} SearchStartAtHeader(ds: string, rest: string)
    requires IsNumeral(ds)
    ensures StartAt(TracePrefix + ds + " start " + rest, |TracePrefix| + |ds|).Some? ==>
              SearchStart(TracePrefix + ds + " start " + rest)
              == StartAt(TracePrefix + ds + " start " + rest, |TracePrefix| + |ds|)
    ensures StartAt(TracePrefix + ds + " start " + rest, |TracePrefix| + |ds|)
         == if ParentHead(rest).Some? && ParentHead(rest).value.1 <= |rest|
                && FileLineAll(rest[ParentHead(rest).value.1..]).Some?
            then Some(StartFields(Some(ParentHead(rest).value.0),
                                  FileLineAll(rest[ParentHead(rest).value.1..]).value.0,
                                  FileLineAll(rest[ParentHead(rest).value.1..]).value.1))
            else match FileLineAll(rest)
              case Some(fl) => Some(StartFields(None, fl.0, fl.1))
              case None => None
  {
    var s := TracePrefix + ds + " start " + rest;
    var p := |TracePrefix| + |ds|;
    assert s[p..p + 7] == " start ";
    assert s[p + 7..] == rest;
    if StartAt(s, p).Some? {
      var f := i => StartAt(s, i);
      forall k: nat | k < p ensures f(k).None? {
        NoStartBefore(ds, rest, k);
      }
      SearchAt(f, |s|, p);
    }
  }

  /** The start header the text view writes for a root trace. */
  lemma {:induction false} SearchStartRoot(n: nat, f: string, ln: nat)
    requires |f| > 0 && forall k :: 0 <= k < |f| ==> f[k] != ':'
    requires NoParentGroup(f + ":" + NatToString(ln) + "\n")
    ensures SearchStart(TracePrefix + NatToString(n) + " start " + f + ":" + NatToString(ln) + "\n")
         == Some(StartFields(None, f, ln))
  {
    var ds := NatToString(n);
    var rest := f + ":" + NatToString(ln) + "\n";
    assert TracePrefix + ds + " start " + f + ":" + NatToString(ln) + "\n" == TracePrefix + ds + " start " + rest;
    FileLineAllOf(f, ln);
    SearchStartAtHeader(ds, rest);
  }

  /** The start header the text view writes for a side trace with parent "P/S". */
  lemma {:induction false} SearchStartSide(n: nat, d1: string, d2: string, f: string, ln: nat)
    requires IsNumeral(d1) && IsNumeral(d2)
    requires |f| > 0 && forall k :: 0 <= k < |f| ==> f[k] != ':'
    ensures SearchStart(TracePrefix + NatToString(n) + " start " + (d1 + "/" + d2) + " " + f + ":" + NatToString(ln) + "\n")
         == Some(StartFields(Some(ParentRef(d1 + "/" + d2, DigitsValue(d1), DigitsValue(d2))), f, ln))
  {
    var ds := NatToString(n);
    var tail := f + ":" + NatToString(ln) + "\n";
    var rest := d1 + "/" + d2 + " " + tail;
    assert TracePrefix + ds + " start " + (d1 + "/" + d2) + " " + f + ":" + NatToString(ln) + "\n"
        == TracePrefix + ds + " start " + rest;
    ParentHeadOf(d1, d2, tail);
    assert rest[|d1| + |d2| + 2..] == tail;
    FileLineAllOf(f, ln);
    SearchStartAtHeader(ds, rest);
  }
}
