/** Writing a bush in the dump's text format and parsing the text again gives
    back the same traces and no abort reasons: the parser (dumpparser.py,
    trace.py) inverts the text view (view/tracebush.py, `_print_trace`) on
    every trace it could itself have produced. */
module RoundTrip {
  import opened Outcomes
  import opened Text
  import opened Patterns
  import opened PatternFacts
  import opened Traces
  import opened AbortReasons
  import opened DumpParsing
  import opened ViewTraceBush
  import opened Seqs

  /** No line break as universal-newline reading sees one: no "\n" and no '\r'. */
  predicate NoNewline(s: string) { forall j :: 0 <= j < |s| ==> s[j] != '\n' && s[j] != '\r' }

  /** A line the parser takes as data: one whole line (so without '\r'), not
      blank, not a header. */
  predicate DataLine(l: string) { IsLine(l) && l != "\n" && MatchHeader(l).None? }

  predicate DataLines(ls: seq<string>) { forall i :: 0 <= i < |ls| ==> DataLine(ls[i]) }

  /** The parent reference as the dump writes it: "P/S". */
  function ParentLabel(parentId: nat, parentSide: nat): string {
    NatToString(parentId) + "/" + NatToString(parentSide)
  }

  /** The header fields of a trace as the view writes them so that the parser
      reads them back: the file has no colon and the link type is not empty,
      as their patterns demand, and neither holds a line break ('\n' or '\r'); a root has no parent label (and its file does
      not read as one), a side trace has the label its parent fields print as.
      This is a sufficient condition: a label with zero-padded numbers, which
      the parser keeps as written, is left out. */
  predicate HeaderFields(t: TraceRec) {
    && |t.file| > 0 && (forall k :: 0 <= k < |t.file| ==> t.file[k] != ':') && NoNewline(t.file)
    && |t.linkType| > 0 && NoNewline(t.linkType)
    && (if t.parent == "" then
          t.parentId == 0 && t.parentSide == 0 && NoParentGroup(t.file + ":" + NatToString(t.line) + "\n")
        else t.parent == ParentLabel(t.parentId, t.parentSide))
  }

  /** The traces the view writes so that the parser reads them back: header
      fields as above, every dumped line a data line, and counters that agree
      with the dumped code. */
  predicate Renderable(t: TraceRec) {
    HeaderFields(t) && DataLines(t.bc) && DataLines(t.ir) && DataLines(t.mc) && Consistent(t)
  }

  // ---------------------------------------------------------------------------
  // Feeding a block of lines to the parser

  /** The parser's fields after the lines of `block`, when none fails and none is a `flush` header. */
  function Feed(ps: PState, block: seq<string>, decode: string -> AbortReason): Option<PState>
    decreases |block|
  {
    if block == [] then Some(ps)
    else match Step(ps, block[0], decode)
      case Err(_) => None
      case Ok(ps1) => if ps1.state == Flush then None else Feed(ps1, block[1..], decode)
  }

  /** A block the parser can feed opens with a step that is not a flush and
      leaves the rest of the block to feed. */
  lemma FeedFirst(ps: PState, block: seq<string>, decode: string -> AbortReason)
    requires block != [] && Feed(ps, block, decode).Some?
    ensures Step(ps, block[0], decode).Ok? && Step(ps, block[0], decode).value.state != Flush
    ensures Feed(ps, block, decode) == Feed(Step(ps, block[0], decode).value, block[1..], decode)
  {
  }

  /** A step that is not a flush lets `parse`'s loop carry on at the next line. */
  lemma RunOn(ps: PState, lines: seq<string>, pos: nat, decode: string -> AbortReason, ps1: PState)
    requires pos < |lines| && Step(ps, lines[pos], decode) == Ok(ps1) && ps1.state != Flush
    ensures Run(ps, lines, pos, decode) == Run(ps1, lines, pos + 1, decode)
  {
    RunStep(ps, lines, pos, decode);
  }

  /** `parse`'s loop goes through a block it can feed and carries on after it. */
  lemma {:induction false} RunFeed(ps: PState, lines: seq<string>, pos: nat, k: nat, decode: string -> AbortReason)
    requires pos + k <= |lines|
    requires Feed(ps, lines[pos..pos + k], decode).Some?
    ensures Run(ps, lines, pos, decode) == Run(Feed(ps, lines[pos..pos + k], decode).value, lines, pos + k, decode)
    decreases k
  {
    if k > 0 {
      var block := lines[pos..pos + k];
      assert block[0] == lines[pos];
      assert block[1..] == lines[pos + 1..pos + k];
      FeedFirst(ps, block, decode);
      var ps1 := Step(ps, block[0], decode).value;
      RunOn(ps, lines, pos, decode, ps1);
      RunFeed(ps1, lines, pos + 1, k - 1, decode);
    }
  }

  /** A dump the parser can feed to the end is parsed whole. */
  lemma {:induction false} RunAll(ps: PState, lines: seq<string>, decode: string -> AbortReason)
    requires Feed(ps, lines, decode).Some?
    ensures Run(ps, lines, 0, decode) == Ok((ParsedDump, |lines|, Feed(ps, lines, decode).value))
  {
    assert lines[0..|lines|] == lines;
    RunFeed(ps, lines, 0, |lines|, decode);
  }

  lemma {:induction false} FeedAppend(ps: PState, a: seq<string>, b: seq<string>, decode: string -> AbortReason)
    ensures Feed(ps, a + b, decode) == match Feed(ps, a, decode)
                                       case None => None
                                       case Some(q) => Feed(q, b, decode)
    decreases |a|
  {
    if a == [] {
      assert a + b == b;
    } else {
      assert (a + b)[0] == a[0];
      assert (a + b)[1..] == a[1..] + b;
      match Step(ps, a[0], decode)
      case Err(_) =>
      case Ok(ps1) =>
        if ps1.state != Flush {
          FeedAppend(ps1, a[1..], b, decode);
        }
    }
  }

  lemma {:induction false} FeedOne(ps: PState, l: string, q: PState, decode: string -> AbortReason)
    requires Step(ps, l, decode) == Ok(q) && q.state != Flush
    ensures Feed(ps, [l], decode) == Some(q)
  {
    assert [l][1..] == [];
  }

  /** Bytecode lines after a start header go to `bc`. */
  lemma {:induction false} FeedBc(ps: PState, ls: seq<string>, decode: string -> AbortReason)
    requires ps.state == Start && ps.cur.Some? && DataLines(ls)
    ensures Feed(ps, ls, decode)
         == Some(ps.(lineNo := ps.lineNo + |ls|, cur := Some(ps.cur.value.(bc := ps.cur.value.bc + ls))))
    decreases |ls|
  {
    var u := ps.cur.value;
    if ls == [] {
      AppendEmpty(u.bc);
      assert ps.(lineNo := ps.lineNo, cur := Some(u)) == ps;
    } else {
      var ps1 := ps.(lineNo := ps.lineNo + 1, cur := Some(u.(bc := u.bc + [ls[0]])));
      assert DataLine(ls[0]);
      assert Step(ps, ls[0], decode) == Ok(ps1);
      FeedBc(ps1, ls[1..], decode);
      AppendAssoc(u.bc, [ls[0]], ls[1..]);
      assert [ls[0]] + ls[1..] == ls;
    }
  }

  /** IR lines after an IR header go to `ir`, each counted as a snapshot or an instruction. */
  lemma {:induction false} FeedIr(ps: PState, ls: seq<string>, decode: string -> AbortReason)
    requires ps.state == IR && ps.cur.Some? && DataLines(ls)
    ensures Feed(ps, ls, decode).Some?
    ensures var q := Feed(ps, ls, decode).value; var u := ps.cur.value;
      && q.cur.Some?
      && q == ps.(lineNo := ps.lineNo + |ls|, cur := q.cur)
      && q.cur.value == u.(ir := u.ir + ls, numSn := q.cur.value.numSn, numIr := q.cur.value.numIr)
      && q.cur.value.numSn == u.numSn + SnapCount(ls)
      && q.cur.value.numIr + q.cur.value.numSn == u.numIr + u.numSn + |ls|
    decreases |ls|
  {
    var u := ps.cur.value;
    if ls == [] {
      AppendEmpty(u.ir);
      assert ps.(lineNo := ps.lineNo, cur := ps.cur) == ps;
    } else {
      var l := ls[0];
      assert DataLine(l);
      var v := if Contains(l, "SNAP") then u.(ir := u.ir + [l], numSn := u.numSn + 1)
               else u.(ir := u.ir + [l], numIr := u.numIr + 1);
      var ps1 := ps.(lineNo := ps.lineNo + 1, cur := Some(v));
      assert Step(ps, l, decode) == Ok(ps1);
      FeedIr(ps1, ls[1..], decode);
      AppendAssoc(u.ir, [l], ls[1..]);
      assert [l] + ls[1..] == ls;
    }
  }

  /** Machine-code lines after an mcode header go to `mc`, and their side exits are counted. */
  lemma {:induction false} FeedMc(ps: PState, ls: seq<string>, decode: string -> AbortReason)
    requires ps.state == Mcode && ps.cur.Some? && DataLines(ls)
    ensures Feed(ps, ls, decode)
         == Some(ps.(lineNo := ps.lineNo + |ls|,
                     cur := Some(ps.cur.value.(mc := ps.cur.value.mc + ls,
                                               sideExits := ExitCountsFrom(ps.cur.value.sideExits, ls)))))
    decreases |ls|
  {
    var u := ps.cur.value;
    if ls == [] {
      AppendEmpty(u.mc);
      assert ps.(lineNo := ps.lineNo, cur := Some(u)) == ps;
    } else {
      var l := ls[0];
      assert DataLine(l);
      var ps1 := ps.(lineNo := ps.lineNo + 1,
                     cur := Some(u.(mc := u.mc + [l], sideExits := Bump(u.sideExits, ArrowOf(l)))));
      assert Step(ps, l, decode) == Ok(ps1);
      FeedMc(ps1, ls[1..], decode);
      AppendAssoc(u.mc, [l], ls[1..]);
      assert [l] + ls[1..] == ls;
    }
  }

  // ---------------------------------------------------------------------------
  // The header lines as written

  /** The trace a start header installs: a fresh trace with the header's parent and location. */
  function Opened(t: TraceRec): TraceRec {
    NewTrace(t.id).(parent := t.parent, parentId := t.parentId, parentSide := t.parentSide,
                    file := t.file, line := t.line)
  }

  lemma {:induction false} StartHeaderMatch(t: TraceRec)
    ensures MatchHeader(StartHeader(t)) == Some(HeaderMatch(t.id, "start"))
  {
    var tail := " " + t.parent + (if t.parent != "" then " " else "") + t.file + ":" + NatToString(t.line) + "\n";
    assert StartHeader(t) == TracePrefix + NatToString(t.id) + " " + "start" + tail;
    MatchHeaderWithId(t.id, "start", tail);
  }

  lemma {:induction false} StartHeaderFields(t: TraceRec)
    requires HeaderFields(t)
    ensures SearchStart(StartHeader(t)) == Some(StartFields(
      if t.parent == "" then None else Some(ParentRef(t.parent, t.parentId, t.parentSide)), t.file, t.line))
  {
    var ds, ls := NatToString(t.id), NatToString(t.line);
    if t.parent == "" {
      assert StartHeader(t) == TracePrefix + ds + " start " + t.file + ":" + ls + "\n";
      SearchStartRoot(t.id, t.file, t.line);
    } else {
      var d1, d2 := NatToString(t.parentId), NatToString(t.parentSide);
      assert StartHeader(t) == TracePrefix + ds + " start " + (d1 + "/" + d2) + " " + t.file + ":" + ls + "\n";
      SearchStartSide(t.id, d1, d2, t.file, t.line);
    }
  }

  /** Any header line goes to `_parse_header_line` with its token and id. */
  lemma {:induction false} HeaderLine(ps: PState, line: string, h: HeaderMatch, decode: string -> AbortReason)
    requires line != "\n" && MatchHeader(line) == Some(h)
    ensures Step(ps, line, decode) == ParsedHeader(ps.(lineNo := ps.lineNo + 1), line, h.token, h.id, decode)
  {
  }

  lemma {:induction false} StartParsed(ps: PState, line: string, id: nat, m: StartFields, decode: string -> AbortReason)
    requires SearchStart(line) == Some(m)
    ensures ParsedHeader(ps, line, "start", id, decode)
         == Ok(PState(ps.lineNo, Start, Some(WithStart(NewTrace(id), m)), TracesOf(ps), 0, ps.aborts))
  {
    assert StateOf("start") == Start;
    assert TracesOf(ps.(state := Start)) == TracesOf(ps);
  }

  lemma {:induction false} IRParsed(ps: PState, line: string, id: nat, decode: string -> AbortReason)
    requires ps.cur.Some? && ps.cur.value.id == id
    ensures ParsedHeader(ps, line, "IR", id, decode) == Ok(ps.(state := IR))
  {
    assert StateOf("IR") == IR;
  }

  lemma {:induction false} McodeParsed(ps: PState, line: string, id: nat, z: nat, decode: string -> AbortReason)
    requires ps.cur.Some? && ps.cur.value.id == id && SearchMcode(line) == Some(z)
    ensures ParsedHeader(ps, line, "mcode", id, decode)
         == Ok(ps.(state := Mcode, cur := Some(ps.cur.value.(sizeMcode := z))))
  {
    assert StateOf("mcode") == Mcode;
  }

  lemma {:induction false} StopParsed(ps: PState, line: string, id: nat, k: string, decode: string -> AbortReason)
    requires ps.cur.Some? && ps.cur.value.id == id && SearchStop(line) == Some(k)
    ensures ParsedHeader(ps, line, "stop", id, decode)
         == Ok(ps.(state := Stop, cur := Some(ps.cur.value.(linkType := k)), stops := ps.stops + 1))
  {
    assert StateOf("stop") == Stop;
  }

  /** The parser's fields just after the start header of `t`. */
  function Opening(ps: PState, t: TraceRec): PState {
    PState(ps.lineNo + 1, Start, Some(Opened(t)), TracesOf(ps), 0, ps.aborts)
  }

  lemma {:induction false} StartStep(ps: PState, t: TraceRec, decode: string -> AbortReason)
    requires HeaderFields(t)
    ensures Step(ps, StartHeader(t), decode) == Ok(Opening(ps, t))
  {
    StartHeaderMatch(t);
    StartHeaderFields(t);
    assert StartHeader(t) != "\n" by {
      assert StartHeader(t)[0] == '-';
    }
    HeaderLine(ps, StartHeader(t), HeaderMatch(t.id, "start"), decode);
    var m := SearchStart(StartHeader(t)).value;
    StartParsed(ps.(lineNo := ps.lineNo + 1), StartHeader(t), t.id, m, decode);
    assert WithStart(NewTrace(t.id), m) == Opened(t);
    assert TracesOf(ps.(lineNo := ps.lineNo + 1)) == TracesOf(ps);
  }

  lemma {:induction false} IRStep(ps: PState, t: TraceRec, decode: string -> AbortReason)
    requires ps.cur.Some? && ps.cur.value.id == t.id
    ensures Step(ps, IRHeader(t), decode) == Ok(ps.(lineNo := ps.lineNo + 1, state := IR))
  {
    assert IRHeader(t) == TracePrefix + NatToString(t.id) + " " + "IR" + "\n";
    MatchHeaderWithId(t.id, "IR", "\n");
    assert IRHeader(t) != "\n" by {
      assert IRHeader(t)[0] == '-';
    }
    HeaderLine(ps, IRHeader(t), HeaderMatch(t.id, "IR"), decode);
    IRParsed(ps.(lineNo := ps.lineNo + 1), IRHeader(t), t.id, decode);
  }

  lemma {:induction false} McodeShape(ds: string, zs: string)
    ensures "---- TRACE " + ds + " " + "mcode " + zs + "\n" == TracePrefix + ds + " " + "mcode" + (" " + zs + "\n")
    ensures "---- TRACE " + ds + " " + "mcode " + zs + "\n" == TracePrefix + ds + " mcode " + zs + "\n"
  {
  }

  lemma {:induction false} McodeHeaderFacts(t: TraceRec)
    ensures MatchHeader(McodeHeader(t)) == Some(HeaderMatch(t.id, "mcode"))
    ensures SearchMcode(McodeHeader(t)) == Some(t.sizeMcode)
    ensures McodeHeader(t) != "\n"
  {
    var ds, zs := NatToString(t.id), NatToString(t.sizeMcode);
    McodeShape(ds, zs);
    MatchHeaderWithId(t.id, "mcode", " " + zs + "\n");
    SearchMcodeRendered(t.id, t.sizeMcode);
    assert McodeHeader(t)[0] == '-';
  }

  lemma {:induction false} McodeStep(ps: PState, t: TraceRec, decode: string -> AbortReason)
    requires ps.cur.Some? && ps.cur.value.id == t.id
    ensures Step(ps, McodeHeader(t), decode)
         == Ok(ps.(lineNo := ps.lineNo + 1, state := Mcode, cur := Some(ps.cur.value.(sizeMcode := t.sizeMcode))))
  {
    McodeHeaderFacts(t);
    HeaderLine(ps, McodeHeader(t), HeaderMatch(t.id, "mcode"), decode);
    McodeParsed(ps.(lineNo := ps.lineNo + 1), McodeHeader(t), t.id, t.sizeMcode, decode);
  }

  lemma {:induction false} StopShape(ds: string, k: string)
    ensures "---- TRACE " + ds + " " + "stop -> " + k + "\n" == TracePrefix + ds + " " + "stop" + (" -> " + k + "\n")
    ensures "---- TRACE " + ds + " " + "stop -> " + k + "\n" == TracePrefix + ds + " stop -> " + k + "\n"
  {
  }

  lemma {:induction false} StopHeaderFacts(t: TraceRec)
    requires |t.linkType| > 0 && NoNewline(t.linkType)
    ensures MatchHeader(StopHeader(t)) == Some(HeaderMatch(t.id, "stop"))
    ensures SearchStop(StopHeader(t)) == Some(t.linkType)
    ensures StopHeader(t) != "\n"
  {
    var ds := NatToString(t.id);
    StopShape(ds, t.linkType);
    MatchHeaderWithId(t.id, "stop", " -> " + t.linkType + "\n");
    SearchStopRendered(t.id, t.linkType);
    assert StopHeader(t)[0] == '-';
  }

  lemma {:induction false} StopStep(ps: PState, t: TraceRec, decode: string -> AbortReason)
    requires ps.cur.Some? && ps.cur.value.id == t.id
    requires |t.linkType| > 0 && NoNewline(t.linkType)
    ensures Step(ps, StopHeader(t), decode)
         == Ok(ps.(lineNo := ps.lineNo + 1, state := Stop, cur := Some(ps.cur.value.(linkType := t.linkType)),
                   stops := ps.stops + 1))
  {
    var line, ps1 := StopHeader(t), ps.(lineNo := ps.lineNo + 1);
    StopHeaderFacts(t);
    HeaderLine(ps, line, HeaderMatch(t.id, "stop"), decode);
    assert Step(ps, line, decode) == ParsedHeader(ps1, line, "stop", t.id, decode);
    StopParsed(ps1, line, t.id, t.linkType, decode);
    var u := ps.cur.value.(linkType := t.linkType);
    assert ps1.(state := Stop, cur := Some(u), stops := ps1.stops + 1)
        == ps.(lineNo := ps.lineNo + 1, state := Stop, cur := Some(u), stops := ps.stops + 1);
  }

  // ---------------------------------------------------------------------------
  // Whole traces and bushes

  lemma {:induction false} BlankStep(ps: PState, decode: string -> AbortReason)
    ensures Step(ps, "\n", decode) == Ok(ps.(lineNo := ps.lineNo + 1))
  {
  }

  lemma {:induction false} Chain(ps: PState, a: seq<string>, b: seq<string>, q: PState, r: PState, decode: string -> AbortReason)
    requires Feed(ps, a, decode) == Some(q) && Feed(q, b, decode) == Some(r)
    ensures Feed(ps, a + b, decode) == Some(r)
  {
    FeedAppend(ps, a, b, decode);
  }

  /** A line the parser takes without a flush, then the rest of the block. */
  lemma {:induction false} FeedHead(ps: PState, h: string, q: PState, ls: seq<string>, decode: string -> AbortReason)
    requires Step(ps, h, decode) == Ok(q) && q.state != Flush
    ensures Feed(ps, [h] + ls, decode) == Feed(q, ls, decode)
  {
    assert ([h] + ls)[0] == h && ([h] + ls)[1..] == ls;
  }

  /** After the start header, the parser goes on with the opened trace. */
  lemma {:induction false} StartFeed(ps: PState, t: TraceRec, ls: seq<string>, decode: string -> AbortReason)
    requires HeaderFields(t)
    ensures Feed(ps, [StartHeader(t)] + ls, decode) == Feed(Opening(ps, t), ls, decode)
  {
    StartStep(ps, t, decode);
    FeedHead(ps, StartHeader(t), Opening(ps, t), ls, decode);
  }

  /** The parser's fields once the bytecode `ls` has gone into the open trace. */
  function AfterBc(q: PState, ls: seq<string>): PState
    requires q.cur.Some?
  {
    q.(lineNo := q.lineNo + |ls|, cur := Some(q.cur.value.(bc := ls)))
  }

  /** A freshly opened trace takes the bytecode as it is. */
  lemma {:induction false} BcFresh(q: PState, ls: seq<string>, decode: string -> AbortReason)
    requires q.state == Start && q.cur.Some? && q.cur.value.bc == [] && DataLines(ls)
    ensures Feed(q, ls, decode) == Some(AfterBc(q, ls))
  {
    FeedBc(q, ls, decode);
    AppendEmpty(ls);
  }

  /** The start header and the bytecode. */
  lemma {:induction false} OpenFeed(ps: PState, t: TraceRec, decode: string -> AbortReason)
    requires HeaderFields(t) && DataLines(t.bc)
    ensures Feed(ps, [StartHeader(t)] + t.bc, decode) == Some(AfterBc(Opening(ps, t), t.bc))
  {
    StartFeed(ps, t, t.bc, decode);
    BcFresh(Opening(ps, t), t.bc, decode);
  }

  /** The IR header and the IR, counted. */
  lemma {:induction false} IrFeed(p: PState, u: TraceRec, t: TraceRec, decode: string -> AbortReason)
    requires p.state == Start && p.cur == Some(u) && u.id == t.id
    requires u.ir == [] && u.numSn == 0 && u.numIr == 0
    requires DataLines(t.ir) && t.numSn == SnapCount(t.ir) && t.numIr + t.numSn == |t.ir|
    ensures Feed(p, [IRHeader(t)] + t.ir, decode)
         == Some(p.(lineNo := p.lineNo + 1 + |t.ir|, state := IR,
                    cur := Some(u.(ir := t.ir, numSn := t.numSn, numIr := t.numIr))))
  {
    var p3 := p.(lineNo := p.lineNo + 1, state := IR);
    IRStep(p, t, decode);
    FeedHead(p, IRHeader(t), p3, t.ir, decode);
    FeedIr(p3, t.ir, decode);
    AppendEmpty(t.ir);
    var q := Feed(p3, t.ir, decode).value;
    var v := q.cur.value;
    assert v.numSn == t.numSn && v.numIr == t.numIr;
    assert v == u.(ir := t.ir, numSn := t.numSn, numIr := t.numIr);
    assert q == p.(lineNo := p.lineNo + 1 + |t.ir|, state := IR, cur := Some(v));
  }

  lemma {:induction false} McBlock(ps: PState, h: string, q: PState, ls: seq<string>, decode: string -> AbortReason)
    requires Step(ps, h, decode) == Ok(q) && q.state == Mcode && q.cur.Some? && DataLines(ls)
    ensures Feed(ps, [h] + ls, decode)
         == Some(q.(lineNo := q.lineNo + |ls|,
                    cur := Some(q.cur.value.(mc := q.cur.value.mc + ls,
                                             sideExits := ExitCountsFrom(q.cur.value.sideExits, ls)))))
  {
    FeedHead(ps, h, q, ls, decode);
    FeedMc(q, ls, decode);
  }

  /** The parser's fields once the mcode header and machine code of `t` have
      gone into the open trace `u`. */
  function AfterMc(p: PState, u: TraceRec, t: TraceRec): PState {
    p.(lineNo := p.lineNo + 1 + |t.mc|, state := Mcode,
       cur := Some(u.(sizeMcode := t.sizeMcode, mc := t.mc, sideExits := t.sideExits)))
  }

  /** Any header line that moves the parser into the mcode section, followed by
      the machine code of `t`. */
  lemma {:induction false} McTail(p: PState, u: TraceRec, t: TraceRec, h: string, decode: string -> AbortReason)
    requires p.cur == Some(u) && u.mc == [] && u.sideExits == map[]
    requires DataLines(t.mc) && t.sideExits == ExitCounts(t.mc)
    requires Step(p, h, decode) == Ok(p.(lineNo := p.lineNo + 1, state := Mcode, cur := Some(u.(sizeMcode := t.sizeMcode))))
    ensures Feed(p, [h] + t.mc, decode) == Some(AfterMc(p, u, t))
  {
    var u5 := u.(sizeMcode := t.sizeMcode);
    var p5 := p.(lineNo := p.lineNo + 1, state := Mcode, cur := Some(u5));
    McBlock(p, h, p5, t.mc, decode);
    AppendEmpty(t.mc);
    var v := u5.(mc := u5.mc + t.mc, sideExits := ExitCountsFrom(u5.sideExits, t.mc));
    assert v == u.(sizeMcode := t.sizeMcode, mc := t.mc, sideExits := t.sideExits);
    var q := p5.(lineNo := p5.lineNo + |t.mc|, cur := Some(v));
    assert Feed(p, [h] + t.mc, decode) == Some(q);
    assert q == AfterMc(p, u, t);
  }

  /** The mcode header and the machine code, its side exits counted. */
  lemma {:induction false} McFeed(p: PState, u: TraceRec, t: TraceRec, decode: string -> AbortReason)
    requires p.state == IR && p.cur == Some(u) && u.id == t.id
    requires u.mc == [] && u.sideExits == map[]
    requires DataLines(t.mc) && t.sideExits == ExitCounts(t.mc)
    ensures Feed(p, [McodeHeader(t)] + t.mc, decode) == Some(AfterMc(p, u, t))
  {
    McodeStep(p, t, decode);
    McTail(p, u, t, McodeHeader(t), decode);
  }

  /** The stop header and the closing blank line: the trace is appended once. */
  lemma {:induction false} CloseFeed(p: PState, u: TraceRec, t: TraceRec, decode: string -> AbortReason)
    requires p.cur == Some(u) && u.id == t.id && |t.linkType| > 0 && NoNewline(t.linkType)
    ensures Feed(p, [StopHeader(t), "\n"], decode)
         == Some(p.(lineNo := p.lineNo + 2, state := Stop, cur := Some(u.(linkType := t.linkType)),
                    stops := p.stops + 1))
  {
    var p7 := p.(lineNo := p.lineNo + 1, state := Stop, cur := Some(u.(linkType := t.linkType)),
                 stops := p.stops + 1);
    StopStep(p, t, decode);
    FeedHead(p, StopHeader(t), p7, ["\n"], decode);
    BlankStep(p7, decode);
    FeedOne(p7, "\n", p7.(lineNo := p7.lineNo + 1), decode);
    assert p7.(lineNo := p7.lineNo + 1)
        == p.(lineNo := p.lineNo + 2, state := Stop, cur := Some(u.(linkType := t.linkType)), stops := p.stops + 1);
    assert [StopHeader(t)] + ["\n"] == [StopHeader(t), "\n"];
  }

  lemma {:induction false} Regroup<T>(s: T, b: seq<T>, i: T, r: seq<T>, m: T, c: seq<T>, p: T, e: T)
    ensures [s] + b + [i] + r + [m] + c + [p] + [e] == (([s] + b) + ([i] + r)) + (([m] + c) + [p, e])
  {
  }

  /** The parser's fields once the bytecode and IR sections of `t` are read. */
  function AfterIr(ps: PState, t: TraceRec): PState {
    PState(ps.lineNo + 2 + |t.bc| + |t.ir|, IR,
           Some(Opened(t).(bc := t.bc, ir := t.ir, numSn := t.numSn, numIr := t.numIr)), TracesOf(ps), 0, ps.aborts)
  }

  /** The `start` header, the bytecode, the IR header and the IR of a written trace. */
  lemma {:induction false} FrontFeed(ps: PState, t: TraceRec, decode: string -> AbortReason)
    requires Renderable(t)
    ensures Feed(ps, ([StartHeader(t)] + t.bc) + ([IRHeader(t)] + t.ir), decode) == Some(AfterIr(ps, t))
  {
    OpenFeed(ps, t, decode);
    var u2 := Opened(t).(bc := t.bc);
    var p2 := PState(ps.lineNo + 1 + |t.bc|, Start, Some(u2), TracesOf(ps), 0, ps.aborts);
    assert AfterBc(Opening(ps, t), t.bc) == p2;
    IrFeed(p2, u2, t, decode);
    var u4 := u2.(ir := t.ir, numSn := t.numSn, numIr := t.numIr);
    assert p2.(lineNo := p2.lineNo + 1 + |t.ir|, state := IR, cur := Some(u4)) == AfterIr(ps, t);
    Chain(ps, [StartHeader(t)] + t.bc, [IRHeader(t)] + t.ir, p2, AfterIr(ps, t), decode);
  }

  /** The mcode header, the mcode, the `stop` header and the blank line of a written trace. */
  lemma {:induction false} BackFeed(ps: PState, t: TraceRec, decode: string -> AbortReason)
    requires Renderable(t)
    ensures Feed(AfterIr(ps, t), ([McodeHeader(t)] + t.mc) + [StopHeader(t), "\n"], decode)
         == Some(PState(ps.lineNo + |TraceLines(t)|, Stop, Some(t), TracesOf(ps), 1, ps.aborts))
  {
    var p4 := AfterIr(ps, t);
    var u4 := p4.cur.value;
    McFeed(p4, u4, t, decode);
    var u6 := u4.(sizeMcode := t.sizeMcode, mc := t.mc, sideExits := t.sideExits);
    var p6 := p4.(lineNo := p4.lineNo + 1 + |t.mc|, state := Mcode, cur := Some(u6));
    assert AfterMc(p4, u4, t) == p6;
    CloseFeed(p6, u6, t, decode);
    var p8 := p6.(lineNo := p6.lineNo + 2, state := Stop, cur := Some(u6.(linkType := t.linkType)), stops := 1);
    assert p8 == p6.(lineNo := p6.lineNo + 2, state := Stop, cur := Some(u6.(linkType := t.linkType)),
                     stops := p6.stops + 1);
    Chain(p4, [McodeHeader(t)] + t.mc, [StopHeader(t), "\n"], p6, p8, decode);
    assert u6.(linkType := t.linkType) == t;
    assert |TraceLines(t)| == |t.bc| + |t.ir| + |t.mc| + 5;
    assert p8 == PState(ps.lineNo + |TraceLines(t)|, Stop, Some(t), TracesOf(ps), 1, ps.aborts);
  }

  /** The lines of one written trace take the parser from any state to that
      trace, stopped once, with every earlier trace frozen before it. */
  lemma {:induction false} TraceFeed(ps: PState, t: TraceRec, decode: string -> AbortReason)
    requires Renderable(t)
    ensures Feed(ps, TraceLines(t), decode)
         == Some(PState(ps.lineNo + |TraceLines(t)|, Stop, Some(t), TracesOf(ps), 1, ps.aborts))
  {
    var front := ([StartHeader(t)] + t.bc) + ([IRHeader(t)] + t.ir);
    var back := ([McodeHeader(t)] + t.mc) + [StopHeader(t), "\n"];
    Regroup(StartHeader(t), t.bc, IRHeader(t), t.ir, McodeHeader(t), t.mc, StopHeader(t), "\n");
    FrontFeed(ps, t, decode);
    BackFeed(ps, t, decode);
    Chain(ps, front, back, AfterIr(ps, t),
          PState(ps.lineNo + |TraceLines(t)|, Stop, Some(t), TracesOf(ps), 1, ps.aborts), decode);
  }

  lemma {:induction false} RepeatOne(t: TraceRec)
    ensures Repeat(t, 1) == [t]
  {
  }

  /** The lines of a written bush take a fresh parser to exactly its traces. */
  lemma {:induction false} BushFeed(ts: seq<TraceRec>, decode: string -> AbortReason)
    requires forall i :: 0 <= i < |ts| ==> Renderable(ts[i])
    ensures Feed(InitState, BushLines(ts), decode).Some?
    ensures var q := Feed(InitState, BushLines(ts), decode).value;
      TracesOf(q) == ts && q.aborts == [] && q.lineNo == |BushLines(ts)|
  {
    if ts != [] {
      var init, t := ts[..|ts| - 1], ts[|ts| - 1];
      BushFeed(init, decode);
      var q := Feed(InitState, BushLines(init), decode).value;
      FeedAppend(InitState, BushLines(init), TraceLines(t), decode);
      TraceFeed(q, t, decode);
      RepeatOne(t);
      SplitLast(ts);
    }
  }

  // ---------------------------------------------------------------------------
  // The written text splits back into the written lines

  lemma {:induction false} NoNewlineAppend(a: string, b: string)
    requires NoNewline(a) && NoNewline(b)
    ensures NoNewline(a + b)
  {
  }

  lemma {:induction false} NumeralNoNewline(n: nat)
    ensures NoNewline(NatToString(n))
  {
    var s := NatToString(n);
    assert forall j :: 0 <= j < |s| ==> IsDigit(s[j]);
  }

  lemma {:induction false} EndLine(s: string)
    requires NoNewline(s)
    ensures IsLine(s + "\n")
  {
  }

  lemma {:induction false} PrefixNoNewline(id: nat)
    ensures NoNewline(Prefix(id))
  {
    NumeralNoNewline(id);
    NoNewlineAppend("---- TRACE ", NatToString(id));
    NoNewlineAppend("---- TRACE " + NatToString(id), " ");
  }

  lemma {:induction false} ParentNoNewline(t: TraceRec)
    requires HeaderFields(t)
    ensures NoNewline(t.parent + (if t.parent != "" then " " else ""))
  {
    if t.parent != "" {
      NumeralNoNewline(t.parentId);
      NumeralNoNewline(t.parentSide);
      NoNewlineAppend(NatToString(t.parentId), "/");
      NoNewlineAppend(NatToString(t.parentId) + "/", NatToString(t.parentSide));
      NoNewlineAppend(t.parent, " ");
    } else {
      assert t.parent + "" == "";
    }
  }

  lemma {:induction false} StartHeaderIsLine(t: TraceRec)
    requires HeaderFields(t)
    ensures IsLine(StartHeader(t))
  {
    var p, pl, ls := Prefix(t.id), t.parent + (if t.parent != "" then " " else ""), NatToString(t.line);
    PrefixNoNewline(t.id);
    ParentNoNewline(t);
    NumeralNoNewline(t.line);
    NoNewlineAppend(p, "start ");
    NoNewlineAppend(p + "start ", pl);
    NoNewlineAppend(p + "start " + pl, t.file);
    NoNewlineAppend(p + "start " + pl + t.file, ":");
    NoNewlineAppend(p + "start " + pl + t.file + ":", ls);
    assert StartHeader(t) == p + "start " + pl + t.file + ":" + ls + "\n";
    EndLine(p + "start " + pl + t.file + ":" + ls);
  }

  lemma {:induction false} HeadersAreLines(t: TraceRec)
    requires HeaderFields(t)
    ensures IsLine(StartHeader(t)) && IsLine(IRHeader(t)) && IsLine(McodeHeader(t)) && IsLine(StopHeader(t))
  {
    StartHeaderIsLine(t);
    var p := Prefix(t.id);
    PrefixNoNewline(t.id);
    NumeralNoNewline(t.sizeMcode);
    NoNewlineAppend(p, "IR");
    EndLine(p + "IR");
    assert IRHeader(t) == p + "IR" + "\n";
    NoNewlineAppend(p, "mcode ");
    NoNewlineAppend(p + "mcode ", NatToString(t.sizeMcode));
    EndLine(p + "mcode " + NatToString(t.sizeMcode));
    NoNewlineAppend(p, "stop -> ");
    NoNewlineAppend(p + "stop -> ", t.linkType);
    EndLine(p + "stop -> " + t.linkType);
  }

  predicate AllLines(ls: seq<string>) { forall i :: 0 <= i < |ls| ==> IsLine(ls[i]) }

  lemma {:induction false} AllLinesAppend(a: seq<string>, b: seq<string>)
    requires AllLines(a) && AllLines(b)
    ensures AllLines(a + b)
  {
  }

  lemma {:induction false} TraceLinesAreLines(t: TraceRec)
    requires Renderable(t)
    ensures AllLines(TraceLines(t))
  {
    HeadersAreLines(t);
    assert AllLines(t.bc) && AllLines(t.ir) && AllLines(t.mc);
    assert IsLine("\n");
    var a0 := [StartHeader(t)];
    AllLinesAppend(a0, t.bc);
    AllLinesAppend(a0 + t.bc, [IRHeader(t)]);
    AllLinesAppend(a0 + t.bc + [IRHeader(t)], t.ir);
    AllLinesAppend(a0 + t.bc + [IRHeader(t)] + t.ir, [McodeHeader(t)]);
    AllLinesAppend(a0 + t.bc + [IRHeader(t)] + t.ir + [McodeHeader(t)], t.mc);
    AllLinesAppend(a0 + t.bc + [IRHeader(t)] + t.ir + [McodeHeader(t)] + t.mc, [StopHeader(t)]);
    AllLinesAppend(a0 + t.bc + [IRHeader(t)] + t.ir + [McodeHeader(t)] + t.mc + [StopHeader(t)], ["\n"]);
  }

  lemma {:induction false} BushLinesAreLines(ts: seq<TraceRec>)
    requires forall i :: 0 <= i < |ts| ==> Renderable(ts[i])
    ensures AllLines(BushLines(ts))
  {
    if ts != [] {
      BushLinesAreLines(ts[..|ts| - 1]);
      TraceLinesAreLines(ts[|ts| - 1]);
      AllLinesAppend(BushLines(ts[..|ts| - 1]), TraceLines(ts[|ts| - 1]));
    }
  }

  /** The text the view writes for a bush of renderable traces holds no '\r'
      and so splits back, as universal-newline reading splits it, into the lines
      written; parsing them reads the whole text, finds no abort reasons, and
      yields the bush's traces, every field equal. */
  lemma {:induction false} RenderReparse(ts: seq<TraceRec>, decode: string -> AbortReason)
    requires forall i :: 0 <= i < |ts| ==> Renderable(ts[i])
    ensures Lines(Concat(BushLines(ts))) == BushLines(ts)
    ensures NoReturn(Concat(BushLines(ts)))
    ensures Parse(BushLines(ts), 0, decode).Ok?
    ensures var r := Parse(BushLines(ts), 0, decode).value;
      && r.0 == ParsedDump && r.1 == |BushLines(ts)|
      && TracesOf(r.2) == ts && r.2.aborts == []
  {
    var lines := BushLines(ts);
    BushLinesAreLines(ts);
    LinesOfConcat(lines);
    ConcatNoReturn(lines);
    BushFeed(ts, decode);
    RunAll(InitState, lines, decode);
  }
}
