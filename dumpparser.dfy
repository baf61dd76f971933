/** The dump parser (dumpanalyze/dumpparser.py): it reads the dump line by
    line, recognises header lines, dispatches every line to the current
    trace's handler for the current state, collects stopped traces and abort
    reasons, and returns after a `flush` header so that the next call goes on
    with the next generation of traces.

    A stopped trace is appended to the list by reference: headers that come
    after its `stop` header still change it, and a second `stop` appends the
    same object again. The value model keeps this as `frozen` traces (those
    before the current trace's `start` header) followed by `stops` copies of
    the current trace. */
module DumpParsing {
  import opened Outcomes
  import opened Text
  import opened Patterns
  import opened Traces
  import opened AbortReasons

  /** `PARSED_GENERATION` and `PARSED_DUMP`. */
  datatype Status = ParsedGeneration | ParsedDump

  function StatusCode(s: Status): (c: nat)
    ensures c == 1 <==> s == ParsedGeneration
    ensures c == 2 <==> s == ParsedDump
  {
    match s
    case ParsedGeneration => 1
    case ParsedDump => 2
  }

  /** The parser's fields, with the list of traces kept as described above. */
  datatype PState = PState(
    lineNo: nat,
    state: State,
    cur: Option<TraceRec>,
    frozen: seq<TraceRec>,
    stops: nat,
    aborts: seq<AbortReason>)

  /** Only an existing trace can have been appended. */
  predicate WF(ps: PState) { ps.stops > 0 ==> ps.cur.Some? }

  function Repeat(t: TraceRec, n: nat): (r: seq<TraceRec>)
    ensures |r| == n && forall i :: 0 <= i < n ==> r[i] == t
  {
    if n == 0 then [] else Repeat(t, n - 1) + [t]
  }

  /** `self._traces`. */
  function TracesOf(ps: PState): (r: seq<TraceRec>)
    ensures |r| == |ps.frozen| + (if ps.cur.Some? then ps.stops else 0)
  {
    match ps.cur
    case None => ps.frozen
    case Some(t) => ps.frozen + Repeat(t, ps.stops)
  }

  /** The list opens with the frozen traces; every later entry is the current trace. */
  lemma TracesOfFacts(ps: PState)
    ensures TracesOf(ps)[..|ps.frozen|] == ps.frozen
    ensures forall i :: |ps.frozen| <= i < |TracesOf(ps)| ==> ps.cur.Some? && TracesOf(ps)[i] == ps.cur.value
  {
  }

  predicate IsPrefix<T(==)>(a: seq<T>, b: seq<T>) { |a| <= |b| && b[..|a|] == a }

  /** `_init_parser`. */
  const InitState := PState(0, Init, None, [], 0, [])

  /** The trace-id assertion of `_parse_header_line`, on a header in state `st`. */
  function IdCheck(ps: PState, st: State, token: string, id: nat): Option<Failure> {
    if !Assertable(st) then None
    else if ps.cur.None? then Some(NoTrace)
    else if id != ps.cur.value.id then Some(IdMismatch(ps.lineNo, token, ps.cur.value.id, id))
    else None
  }

  /** `self._trace = Trace(trace_id)`: the traces collected so far are frozen. */
  function Started(ps: PState, id: nat): PState {
    ps.(frozen := TracesOf(ps), cur := Some(NewTrace(id)), stops := 0)
  }

  /** `self._trace.process_header(state, line)`, then the append on `stop`. */
  function HeaderOnCur(ps: PState, line: string): Result<PState, Failure> {
    if ps.cur.None? then Err(NoTrace)
    else match HeaderStep(ps.state, ps.cur.value, line)
      case Err(e) => Err(e)
      case Ok(t) => Ok(ps.(cur := Some(t), stops := if ps.state == Stop then ps.stops + 1 else ps.stops))
  }

  /** `_parse_header_line(line, token, id)`. */
  function ParsedHeader(ps: PState, line: string, token: string, id: nat, decode: string -> AbortReason)
    : Result<PState, Failure>
  {
    var st := StateOf(token);
    match IdCheck(ps, st, token, id)
    case Some(e) => Err(e)
    case None => Dispatched(ps.(state := st), line, id, decode)
  }

  /** The rest of `_parse_header_line`, once the state is set and the id
      checked: an abort reason, or the handler of the (new) current trace. */
  function Dispatched(ps: PState, line: string, id: nat, decode: string -> AbortReason): Result<PState, Failure> {
    if ps.state == Abort then Ok(ps.(aborts := ps.aborts + [decode(line)]))
    else HeaderOnCur(if ps.state == Start then Started(ps, id) else ps, line)
  }

  /** `_parse_line(line)`. */
  function ParsedLine(ps: PState, line: string, decode: string -> AbortReason): Result<PState, Failure>
  {
    if line == "\n" then Ok(ps)
    else match MatchHeader(line)
      case Some(h) => ParsedHeader(ps, line, h.token, h.id, decode)
      case None =>
        if ps.cur.None? then Err(NoTrace)
        else match DataStep(ps.state, ps.cur.value, line)
          case Err(e) => Err(e)
          case Ok(t) => Ok(ps.(cur := Some(t)))
  }

  /** One turn of `parse`'s loop: count the line, then parse it. */
  function Step(ps: PState, line: string, decode: string -> AbortReason): Result<PState, Failure> {
    ParsedLine(ps.(lineNo := ps.lineNo + 1), line, decode)
  }

  /** The rest of `parse`'s loop from file position `pos`: the status, the
      file position it stops at, and the parser's fields then. */
  function Run(ps: PState, lines: seq<string>, pos: nat, decode: string -> AbortReason)
    : Result<(Status, nat, PState), Failure>
    requires pos <= |lines|
    decreases |lines| - pos
  {
    if pos == |lines| then Ok((ParsedDump, pos, ps))
    else match Step(ps, lines[pos], decode)
      case Err(e) => Err(e)
      case Ok(ps1) =>
        if ps1.state == Flush then Ok((ParsedGeneration, pos + 1, ps1))
        else Run(ps1, lines, pos + 1, decode)
  }

  /** `parse()` on a dump whose lines are `lines`, the file standing at `pos`. */
  function Parse(lines: seq<string>, pos: nat, decode: string -> AbortReason): Result<(Status, nat, PState), Failure>
    requires pos <= |lines|
  {
    Run(InitState, lines, pos, decode)
  }

  /** `Run` from a position before the end takes one step. */
  lemma RunStep(ps: PState, lines: seq<string>, pos: nat, decode: string -> AbortReason)
    requires pos < |lines|
    ensures Run(ps, lines, pos, decode)
            == match Step(ps, lines[pos], decode)
               case Err(e) => Err(e)
               case Ok(ps1) => if ps1.state == Flush then Ok((ParsedGeneration, pos + 1, ps1))
                               else Run(ps1, lines, pos + 1, decode)
  {
  }

  /** What a header line does to the parser's fields. */
  lemma ParsedHeaderFacts(ps: PState, line: string, token: string, id: nat, decode: string -> AbortReason)
    ensures var r := ParsedHeader(ps, line, token, id, decode);
      && (r.Ok? ==> r.value.state == StateOf(token) && r.value.lineNo == ps.lineNo)
      && (Assertable(StateOf(token)) && ps.cur.None? ==> r == Err(NoTrace))
      && (Assertable(StateOf(token)) && ps.cur.Some? && id != ps.cur.value.id ==>
            r == Err(IdMismatch(ps.lineNo, token, ps.cur.value.id, id)))
      && (r.Ok? ==> IsPrefix(ps.frozen, r.value.frozen) && WF(r.value))
      && (r.Ok? && token == "abort" ==> r.value == ps.(state := Abort, aborts := ps.aborts + [decode(line)]))
      && (r.Ok? && token != "abort" ==> r.value.aborts == ps.aborts)
      && (r.Ok? && token == "start" ==>
            r.value.frozen == TracesOf(ps) && r.value.stops == 0
            && r.value.cur.Some? && r.value.cur.value.id == id)
      && (r.Ok? && token == "stop" ==> r.value.frozen == ps.frozen && r.value.stops == ps.stops + 1)
      && (r.Ok? && token != "start" && token != "stop" ==> r.value.frozen == ps.frozen && r.value.stops == ps.stops)
  {
  }

  /** What any line does to the parser's fields. */
  lemma ParsedLineFacts(ps: PState, line: string, decode: string -> AbortReason)
    ensures var r := ParsedLine(ps, line, decode);
      && (line == "\n" ==> r == Ok(ps))
      && (line != "\n" && MatchHeader(line).None? && ps.cur.None? ==> r == Err(NoTrace))
      && (line != "\n" && MatchHeader(line).None? && r.Ok? ==>
            r.value == ps.(cur := r.value.cur) && r.value.cur.Some?
            && DataStep(ps.state, ps.cur.value, line) == Ok(r.value.cur.value))
      && (r.Ok? ==> r.value.lineNo == ps.lineNo && IsPrefix(ps.frozen, r.value.frozen)
                    && IsPrefix(ps.aborts, r.value.aborts))
      && (WF(ps) && r.Ok? ==> WF(r.value))
  {
    if line != "\n" && MatchHeader(line).Some? {
      var h := MatchHeader(line).value;
      ParsedHeaderFacts(ps, line, h.token, h.id, decode);
    }
  }

  lemma PrefixTrans<T>(a: seq<T>, b: seq<T>, c: seq<T>)
    requires IsPrefix(a, b) && IsPrefix(b, c)
    ensures IsPrefix(a, c)
  {
    assert c[..|a|] == c[..|b|][..|a|];
  }

  /** `parse` stops after a `flush` header or at the end of the dump, having
      counted one line per line read. */
  lemma {:induction false} RunStops(ps: PState, lines: seq<string>, pos: nat, decode: string -> AbortReason)
    requires pos <= |lines|
    ensures var r := Run(ps, lines, pos, decode);
      && (r.Ok? ==> pos <= r.value.1 <= |lines|)
      && (r.Ok? && r.value.0 == ParsedDump ==> r.value.1 == |lines|)
      && (r.Ok? && r.value.0 == ParsedGeneration ==> r.value.2.state == Flush && r.value.1 > pos)
      && (r.Ok? ==> r.value.2.lineNo == ps.lineNo + (r.value.1 - pos))
    decreases |lines| - pos
  {
    if pos < |lines| {
      RunStep(ps, lines, pos, decode);
      match Step(ps, lines[pos], decode)
      case Err(_) =>
      case Ok(ps1) =>
        StepKeeps(ps, lines[pos], decode, ps1);
        if ps1.state != Flush {
          RunStops(ps1, lines, pos + 1, decode);
        }
    }
  }

  /** A line that parses keeps the line number, the frozen traces and the
      abort reasons collected so far. */
  lemma LineKeeps(ps: PState, line: string, decode: string -> AbortReason, ps1: PState)
    requires ParsedLine(ps, line, decode) == Ok(ps1)
    ensures ps1.lineNo == ps.lineNo
    ensures IsPrefix(ps.frozen, ps1.frozen) && IsPrefix(ps.aborts, ps1.aborts)
    ensures WF(ps) ==> WF(ps1)
  {
    ParsedLineFacts(ps, line, decode);
  }

  /** One turn of the loop counts the line and keeps the frozen traces and
      the abort reasons collected so far. */
  lemma StepKeeps(ps: PState, line: string, decode: string -> AbortReason, ps1: PState)
    requires Step(ps, line, decode) == Ok(ps1)
    ensures ps1.lineNo == ps.lineNo + 1
    ensures IsPrefix(ps.frozen, ps1.frozen) && IsPrefix(ps.aborts, ps1.aborts)
    ensures WF(ps) ==> WF(ps1)
  {
    LineKeeps(ps.(lineNo := ps.lineNo + 1), line, decode, ps1);
  }

  /** The traces frozen and the abort reasons collected so far are kept, and
      no trace is appended without a current one. */
  lemma {:induction false} RunKeeps(ps: PState, lines: seq<string>, pos: nat, decode: string -> AbortReason)
    requires pos <= |lines|
    ensures var r := Run(ps, lines, pos, decode);
      && (r.Ok? ==> IsPrefix(ps.frozen, r.value.2.frozen) && IsPrefix(ps.aborts, r.value.2.aborts))
      && (WF(ps) && r.Ok? ==> WF(r.value.2))
    decreases |lines| - pos
  {
    if pos < |lines| {
      RunStep(ps, lines, pos, decode);
      match Step(ps, lines[pos], decode)
      case Err(_) =>
      case Ok(ps1) =>
        StepKeeps(ps, lines[pos], decode, ps1);
        if ps1.state != Flush {
          RunKeeps(ps1, lines, pos + 1, decode);
          var r := Run(ps1, lines, pos + 1, decode);
          if r.Ok? {
            PrefixTrans(ps.frozen, ps1.frozen, r.value.2.frozen);
            PrefixTrans(ps.aborts, ps1.aborts, r.value.2.aborts);
          }
        }
    }
  }

  /** A `stop` header line. */
  predicate IsStop(line: string) {
    line != "\n" && MatchHeader(line).Some? && MatchHeader(line).value.token == "stop"
  }

  /** The `stop` headers among `ls`. */
  function StopCount(ls: seq<string>): nat {
    if ls == [] then 0 else (if IsStop(ls[0]) then 1 else 0) + StopCount(ls[1..])
  }

  /** How `Run` goes on after the step from `a` that gave `o` and the fields `b`. */
  lemma RunOn(a: PState, lines: seq<string>, pos: nat, decode: string -> AbortReason, o: Outcome<Failure>, b: PState)
    requires pos < |lines|
    requires match Step(a, lines[pos], decode)
             case Ok(ps) => o == Pass && b == ps
             case Err(e) => o == Fail(e)
    ensures o.Fail? ==> Run(a, lines, pos, decode) == Err(o.error)
    ensures o.Pass? && b.state == Flush ==> Run(a, lines, pos, decode) == Ok((ParsedGeneration, pos + 1, b))
    ensures o.Pass? && b.state != Flush ==> Run(a, lines, pos, decode) == Run(b, lines, pos + 1, decode)
  {
    RunStep(a, lines, pos, decode);
  }

  /** A header appends one trace if it is a `stop` header and none otherwise. */
  lemma HeaderCount(ps: PState, line: string, token: string, id: nat, decode: string -> AbortReason)
    ensures var r := ParsedHeader(ps, line, token, id, decode);
            r.Ok? ==> |TracesOf(r.value)| == |TracesOf(ps)| + (if token == "stop" then 1 else 0)
  {
    ParsedHeaderFacts(ps, line, token, id, decode);
  }

  /** A blank line or a data line appends no trace. */
  lemma DataCount(ps: PState, line: string, decode: string -> AbortReason)
    requires line == "\n" || MatchHeader(line).None?
    ensures var r := ParsedLine(ps, line, decode);
            r.Ok? ==> |TracesOf(r.value)| == |TracesOf(ps)|
  {
    ParsedLineFacts(ps, line, decode);
  }

  /** A header line appends a trace exactly when it is a `stop` header. */
  lemma HeaderLineCount(ps: PState, line: string, decode: string -> AbortReason)
    requires line != "\n" && MatchHeader(line).Some?
    ensures var r := ParsedLine(ps, line, decode);
            r.Ok? ==> |TracesOf(r.value)| == |TracesOf(ps)| + (if IsStop(line) then 1 else 0)
  {
    var h := MatchHeader(line).value;
    assert ParsedLine(ps, line, decode) == ParsedHeader(ps, line, h.token, h.id, decode);
    HeaderCount(ps, line, h.token, h.id, decode);
  }

  /** A line appends one trace if it is a `stop` header and none otherwise. */
  lemma LineCount(ps: PState, line: string, decode: string -> AbortReason)
    ensures var r := ParsedLine(ps, line, decode);
            r.Ok? ==> |TracesOf(r.value)| == |TracesOf(ps)| + (if IsStop(line) then 1 else 0)
  {
    if line != "\n" && MatchHeader(line).Some? {
      HeaderLineCount(ps, line, decode);
    } else {
      DataCount(ps, line, decode);
    }
  }

  /** The same, for a line that parses. */
  lemma LineCountOk(ps: PState, line: string, decode: string -> AbortReason, ps1: PState)
    requires ParsedLine(ps, line, decode) == Ok(ps1)
    ensures |TracesOf(ps1)| == |TracesOf(ps)| + (if IsStop(line) then 1 else 0)
  {
    LineCount(ps, line, decode);
  }

  /** The same for one turn of the loop, which also counts the line. */
  lemma StepCount(ps: PState, line: string, decode: string -> AbortReason, ps1: PState)
    requires Step(ps, line, decode) == Ok(ps1)
    ensures |TracesOf(ps1)| == |TracesOf(ps)| + (if IsStop(line) then 1 else 0)
  {
    LineCountOk(ps.(lineNo := ps.lineNo + 1), line, decode, ps1);
  }

  lemma CountCons(lines: seq<string>, pos: nat, e: nat)
    requires pos < e <= |lines|
    ensures StopCount(lines[pos..e]) == (if IsStop(lines[pos]) then 1 else 0) + StopCount(lines[pos + 1..e])
  {
    assert lines[pos..e][0] == lines[pos];
    assert lines[pos..e][1..] == lines[pos + 1..e];
  }

  /** Every trace in the list was appended by a `stop` header among the lines
      read: the list holds one entry per such header. */
  lemma {:induction false} RunCount(ps: PState, lines: seq<string>, pos: nat, decode: string -> AbortReason)
    requires pos <= |lines|
    ensures var r := Run(ps, lines, pos, decode);
            r.Ok? ==> pos <= r.value.1 <= |lines|
                      && |TracesOf(r.value.2)| == |TracesOf(ps)| + StopCount(lines[pos..r.value.1])
    decreases |lines| - pos
  {
    if pos == |lines| {
      assert lines[pos..pos] == [];
    } else {
      RunStep(ps, lines, pos, decode);
      match Step(ps, lines[pos], decode)
      case Err(_) =>
      case Ok(ps1) =>
        StepCount(ps, lines[pos], decode, ps1);
        if ps1.state == Flush {
          CountCons(lines, pos, pos + 1);
          assert lines[pos + 1..pos + 1] == [];
        } else {
          RunCount(ps1, lines, pos + 1, decode);
          var r := Run(ps1, lines, pos + 1, decode);
          if r.Ok? {
            CountCons(lines, pos, r.value.1);
          }
        }
    }
  }

  /** `parse` returns as many traces as it read `stop` headers. */
  lemma ParseCount(lines: seq<string>, pos: nat, decode: string -> AbortReason)
    requires pos <= |lines|
    ensures var r := Parse(lines, pos, decode);
            r.Ok? ==> pos <= r.value.1 <= |lines| && |TracesOf(r.value.2)| == StopCount(lines[pos..r.value.1])
  {
    RunCount(InitState, lines, pos, decode);
  }

  // ---------------------------------------------------------------------------
  // The objects

  /** The snapshots of a list of trace objects. */
  function Snaps(ts: seq<Trace>): (r: seq<TraceRec>)
    reads ts
    ensures |r| == |ts| && forall i :: 0 <= i < |ts| ==> r[i] == ts[i].Snapshot()
  {
    if ts == [] then [] else [ts[0].Snapshot()] + Snaps(ts[1..])
  }

  class DumpParser {
    /** The lines of the dump file (the file's iteration; decoding is not modelled). */
    const dump: seq<string>
    /** `AbortReason(line)`. */
    const decode: string -> AbortReason
    /** The position of the file iterator. */
    var pos: nat
    var lineNo: nat
    var state: State
    var trace: Trace?
    var traces: seq<Trace>
    var abortReasons: seq<AbortReason>
    /** How many entries of `traces` come before the current trace's `start` header. */
    ghost var nFrozen: nat

    /** Frozen entries are other objects than the current trace; the
        entries after them are the current trace itself. */
    ghost predicate Valid()
      reads this
    {
      pos <= |dump| && nFrozen <= |traces|
      && (forall i :: 0 <= i < nFrozen ==> traces[i] != trace)
      && (forall i :: nFrozen <= i < |traces| ==> traces[i] == trace)
    }

    /** The current trace as a value. */
    ghost function Cur(): Option<TraceRec>
      reads this`trace, trace
    {
      if trace == null then None else Some(trace.Snapshot())
    }

    /** The traces appended before the current trace's `start` header, as values. */
    ghost function Frozen(): seq<TraceRec>
      reads this`traces, this`nFrozen, traces
      requires nFrozen <= |traces|
    {
      Snaps(traces[..nFrozen])
    }

    /** The parser's fields as a value. */
    ghost function Abs(): PState
      reads this`lineNo, this`state, this`trace, this`traces, this`abortReasons, this`nFrozen, trace, traces
      requires nFrozen <= |traces|
    {
      PState(lineNo, state, Cur(), Frozen(), |traces| - nFrozen, abortReasons)
    }

    /** The outcome `o` and the fields now are what the value model's `res` says. */
    ghost predicate Reached(res: Result<PState, Failure>, o: Outcome<Failure>)
      reads this, trace, traces
    {
      match res
      case Ok(ps) => o == Pass && Valid() && Abs() == ps
      case Err(e) => o == Fail(e)
    }

    /** The `traces` property holds the traces the value model describes. */
    lemma TracesAbs()
      requires Valid()
      ensures WF(Abs())
      ensures Snaps(traces) == TracesOf(Abs())
    {
      var r := Snaps(traces);
      var q := TracesOf(Abs());
      if nFrozen < |traces| {
        assert traces[nFrozen] == trace;
      }
      assert |r| == |q|;
      forall i | 0 <= i < |r| ensures r[i] == q[i] {
        if i < nFrozen {
          assert q[..nFrozen] == Snaps(traces[..nFrozen]);
          assert q[i] == q[..nFrozen][i];
        }
      }
    }

    constructor(lines: seq<string>, dec: string -> AbortReason)
      ensures dump == lines && decode == dec && pos == 0
      ensures Valid() && Abs() == InitState
    {
      dump := lines;
      decode := dec;
      pos := 0;
      lineNo := 0;
      state := Init;
      trace := null;
      traces := [];
      abortReasons := [];
      nFrozen := 0;
    }

    /** `_init_parser`. */
    method InitParser()
      requires pos <= |dump|
      modifies this
      ensures pos == old(pos) && Valid() && Abs() == InitState
    {
      lineNo := 0;
      state := Init;
      trace := null;
      traces := [];
      abortReasons := [];
      nFrozen := 0;
    }

    /** `self._trace = Trace(trace_id)`: the traces collected so far are frozen. */
    method NewCurrent(id: nat)
      requires Valid()
      modifies this
      ensures Valid() && fresh(trace)
      ensures pos == old(pos) && lineNo == old(lineNo) && state == old(state)
      ensures Abs() == Started(old(Abs()), id)
    {
      TracesAbs();
      ghost var all := Snaps(traces);
      var t := new Trace(id);
      trace, nFrozen := t, |traces|;
      AllFrozen();
      assert Snaps(traces) == all;
    }

    /** With every entry frozen, the list's snapshots are the frozen traces. */
    lemma AllFrozen()
      requires nFrozen == |traces| && trace != null
      ensures Abs() == PState(lineNo, state, Some(trace.Snapshot()), Snaps(traces), 0, abortReasons)
    {
      assert traces[..nFrozen] == traces;
    }

    /** The trace-id assertion, on the state just set. */
    method CheckId(token: string, id: nat) returns (e: Option<Failure>)
      requires Valid()
      ensures e == IdCheck(Abs(), state, token, id)
    {
      e := None;
      if Assertable(state) {
        if trace == null {
          e := Some(NoTrace);
        } else if id != trace.id {
          e := Some(IdMismatch(lineNo, token, trace.id, id));
        }
      }
    }

    /** `self._trace.process_header(state, line)`, then the append for `stop`. */
    method HeaderOnCurrent(l: string) returns (o: Outcome<Failure>)
      requires Valid()
      modifies this, trace
      ensures pos == old(pos) && lineNo == old(lineNo) && trace == old(trace)
      ensures Reached(HeaderOnCur(old(Abs()), l), o)
    {
      if trace == null {
        return Fail(NoTrace);
      }
      ghost var before := Abs();
      ghost var r := HeaderStep(state, trace.Snapshot(), l);
      o := trace.ProcessHeader(state, l);
      if o.Fail? {
        assert r.Err?;
        return;
      }
      assert r.Ok? && trace.Snapshot() == r.value;
      assert Snaps(traces[..nFrozen]) == before.frozen;
      assert Abs() == before.(cur := Some(r.value));
      if state == Stop {
        AppendCurrent();
      }
    }

    /** `self._traces.append(self._trace)` on a `stop` header. */
    method AppendCurrent()
      requires Valid() && trace != null
      modifies this
      ensures Valid() && Abs() == old(Abs()).(stops := old(Abs()).stops + 1)
      ensures pos == old(pos) && lineNo == old(lineNo) && trace == old(trace) && state == old(state)
    {
      traces := traces + [trace];
      assert traces[..nFrozen] == old(traces)[..nFrozen];
    }

    /** `_parse_header_line`. */
    method ParseHeaderLine(l: string, token: string, id: nat) returns (o: Outcome<Failure>)
      requires Valid()
      modifies this, trace
      ensures pos == old(pos) && lineNo == old(lineNo)
      ensures trace == null || trace == old(trace) || fresh(trace)
      ensures Reached(ParsedHeader(old(Abs()), l, token, id, decode), o)
    {
      ghost var a0 := Abs();
      var st := StateOf(token);
      SetState(st);
      var e := CheckId(token, id);
      assert IdCheck(Abs(), st, token, id) == IdCheck(a0, st, token, id);
      if e.Some? {
        assert ParsedHeader(a0, l, token, id, decode) == Err(e.value);
        return Fail(e.value);
      }
      assert ParsedHeader(a0, l, token, id, decode) == Dispatched(Abs(), l, id, decode);
      o := DispatchHeader(l, id);
    }

    /** The rest of `_parse_header_line`, after the id assertion. */
    method DispatchHeader(l: string, id: nat) returns (o: Outcome<Failure>)
      requires Valid()
      modifies this, trace
      ensures pos == old(pos) && lineNo == old(lineNo)
      ensures trace == null || trace == old(trace) || fresh(trace)
      ensures Reached(Dispatched(old(Abs()), l, id, decode), o)
    {
      if state == Abort {
        AddAbortReason(l);
        return Pass;
      }
      if state == Start {
        NewCurrent(id);
      }
      o := HeaderOnCurrent(l);
    }

    /** `self._state = state`. */
    method SetState(st: State)
      requires Valid()
      modifies this
      ensures Valid() && pos == old(pos) && lineNo == old(lineNo) && trace == old(trace) && state == st
      ensures Abs() == old(Abs()).(state := st)
    {
      state := st;
    }

    /** `self._abort_reasons.append(AbortReason(line))`. */
    method AddAbortReason(l: string)
      requires Valid()
      modifies this
      ensures Valid() && pos == old(pos) && lineNo == old(lineNo) && trace == old(trace)
      ensures Abs() == old(Abs()).(aborts := old(Abs()).aborts + [decode(l)])
    {
      abortReasons := abortReasons + [decode(l)];
    }

    /** `_parse_line`. */
    method ParseLine(l: string) returns (o: Outcome<Failure>)
      requires Valid()
      modifies this, trace
      ensures pos == old(pos) && lineNo == old(lineNo)
      ensures trace == null || trace == old(trace) || fresh(trace)
      ensures Reached(ParsedLine(old(Abs()), l, decode), o)
    {
      if l == "\n" {
        return Pass;
      }
      var m := MatchHeader(l);
      if m.Some? {
        o := ParseHeaderLine(l, m.value.token, m.value.id);
      } else {
        if trace == null {
          return Fail(NoTrace);
        }
        ghost var before := Abs();
        o := trace.ProcessData(state, l);
        assert Snaps(traces[..nFrozen]) == before.frozen;
      }
    }

    /** One turn of `parse`'s loop: count the line and parse it. */
    method Advance() returns (o: Outcome<Failure>)
      requires Valid() && pos < |dump|
      modifies this, trace
      ensures pos == old(pos) + 1
      ensures trace == null || trace == old(trace) || fresh(trace)
      ensures o.Fail? ==> Run(old(Abs()), dump, old(pos), decode) == Err(o.error)
      ensures o.Pass? ==> Valid()
      ensures o.Pass? && state == Flush ==> Run(old(Abs()), dump, old(pos), decode) == Ok((ParsedGeneration, pos, Abs()))
      ensures o.Pass? && state != Flush ==> Run(old(Abs()), dump, old(pos), decode) == Run(Abs(), dump, pos, decode)
    {
      var l := dump[pos];
      ghost var a0, p0 := Abs(), pos;
      pos := pos + 1;
      assert Abs() == a0;
      CountLine();
      ghost var a1 := Abs();
      assert a1 == a0.(lineNo := a0.lineNo + 1);
      ghost var r := ParsedLine(a1, l, decode);
      assert r == Step(a0, l, decode);
      o := ParseLine(l);
      if o.Fail? {
        RunOn(a0, dump, p0, decode, o, a0);
      } else {
        RunOn(a0, dump, p0, decode, o, Abs());
      }
    }

    /** `self._line += 1`. */
    method CountLine()
      requires Valid()
      modifies this
      ensures Valid() && pos == old(pos) && trace == old(trace)
      ensures Abs() == old(Abs()).(lineNo := old(Abs()).lineNo + 1)
    {
      lineNo := lineNo + 1;
    }

    /** The parser returned `r` and stands where the value model's `res` says. */
    ghost predicate Returned(res: Result<(Status, nat, PState), Failure>, r: Result<Status, Failure>)
      reads this, trace, traces
    {
      match res
      case Ok(x) => r == Ok(x.0) && pos == x.1 && Valid() && Abs() == x.2
      case Err(e) => r == Err(e)
    }

    /** `parse()`: one generation, from where the previous call stopped. */
    method Parse() returns (r: Result<Status, Failure>)
      requires Valid()
      modifies this
      ensures Returned(Run(InitState, dump, old(pos), decode), r)
    {
      InitParser();
      while pos < |dump|
        invariant Valid()
        invariant old(pos) <= pos
        invariant trace == null || fresh(trace)
        invariant state != Flush
        invariant Run(InitState, dump, old(pos), decode) == Run(Abs(), dump, pos, decode)
        decreases |dump| - pos
      {
        var o := Advance();
        if o.Fail? {
          return Err(o.error);
        }
        if state == Flush {
          return Ok(ParsedGeneration);
        }
      }
      r := Ok(ParsedDump);
    }
  }
}
