/** One compiled trace as the dump describes it (dumpanalyze/trace.py): its
    identity, its parent reference, where it starts, how it links, and the
    bytecode, IR and machine code dumped for it. The per-state handlers are
    given once as pure steps on a value snapshot (`HeaderStep`, `DataStep`),
    and the class `Trace` performs them in place. */
module Traces {
  import opened Outcomes
  import opened Text
  import opened Patterns

  /** The parser states: the state token of a header line. */
  datatype State = Init | Start | IR | Mcode | Stop | Exit | Abort | Flush | Unknown(name: string)

  function Name(st: State): string {
    match st
    case Init => ""
    case Start => "start"
    case IR => "IR"
    case Mcode => "mcode"
    case Stop => "stop"
    case Exit => "exit"
    case Abort => "abort"
    case Flush => "flush"
    case Unknown(n) => n
  }

  predicate IsKnownName(s: string) {
    s in {"", "start", "IR", "mcode", "stop", "exit", "abort", "flush"}
  }

  /** The state a header token names; any other token is a state without handlers. */
  function StateOf(token: string): (st: State)
    ensures Name(st) == token
    ensures st.Unknown? <==> !IsKnownName(token)
  {
    match token
    case "" => Init
    case "start" => Start
    case "IR" => IR
    case "mcode" => Mcode
    case "stop" => Stop
    case "exit" => Exit
    case "abort" => Abort
    case "flush" => Flush
    case _ => Unknown(token)
  }

  lemma StateOfName(st: State)
    requires st.Unknown? ==> !IsKnownName(st.name)
    ensures StateOf(Name(st)) == st
  {
  }

  /** The states whose header must carry the current trace's id. */
  predicate Assertable(st: State) {
    st == IR || st == Mcode || st == Stop || st == Abort
  }

  /** Why processing stops: the Python code exits or raises in these cases. */
  datatype Failure =
    | NoMatch(line: string)                  // a header pattern's `search` gave None
    | NoHandler(onHeader: bool, state: string) // `getattr` found no handler method
    | NoTrace                                // a step needed the current trace while there was none
    | IdMismatch(lineNo: nat, state: string, expected: nat, got: nat)

  /** The opening of `sys.exit`'s message for an id mismatch, up to the ids. */
  function ExitPrefix(lineNo: nat, state: string): string {
    "Line " + NatToString(lineNo) + ", in state=" + state + ": Expected trace ID "
  }

  /** The message `sys.exit` prints for an id mismatch (dumpparser.py:109-112):
      the expected id right after the opening, then the id found at the end. */
  function ExitMessage(lineNo: nat, state: string, expected: nat, got: nat): (m: string)
    ensures StartsWith(m, ExitPrefix(lineNo, state) + NatToString(expected) + ", got ")
    ensures |NatToString(got)| <= |m| && m[|m| - |NatToString(got)|..] == NatToString(got)
  {
    var p := ExitPrefix(lineNo, state) + NatToString(expected) + ", got ";
    assert (p + NatToString(got))[..|p|] == p;
    assert (p + NatToString(got))[|p|..] == NatToString(got);
    p + NatToString(got)
  }

  /** The two ids read back from an exit message with the given opening: the
      digits up to ", got ", then the digits to the end. */
  function ExitIds(m: string, prefix: string): Option<(nat, nat)> {
    if !StartsWith(m, prefix) then None
    else
      var rest := m[|prefix|..];
      var a := RunLength(rest, 0, IsDigit);
      if a == 0 || !OccursAt(rest, a, ", got ") || !IsNumeral(rest[a + 6..]) then None
      else Some((DigitsValue(rest[..a]), DigitsValue(rest[a + 6..])))
  }

  /** Reading back `p + e + ", got " + g` for numerals `e` and `g`. */
  lemma ReadBackIds(p: string, e: string, g: string)
    requires IsNumeral(e) && IsNumeral(g)
    ensures ExitIds(p + e + ", got " + g, p) == Some((DigitsValue(e), DigitsValue(g)))
  {
    var m := p + e + ", got " + g;
    assert m[..|p|] == p;
    var rest := m[|p|..];
    assert rest == e + ", got " + g;
    assert rest[|e|] == ',';
    RunLengthExact(rest, 0, IsDigit, |e|);
    assert rest[|e|..|e| + 6] == ", got ";
    assert rest[..|e|] == e;
    assert rest[|e| + 6..] == g;
  }

  /** The exit message reports both ids: reading it back gives the expected
      and the found id, in that order. */
  lemma ExitMessageIds(lineNo: nat, state: string, expected: nat, got: nat)
    ensures ExitIds(ExitMessage(lineNo, state, expected, got), ExitPrefix(lineNo, state)) == Some((expected, got))
  {
    ReadBackIds(ExitPrefix(lineNo, state), NatToString(expected), NatToString(got));
  }

  /** The text a failure ends the program with: `sys.exit`'s message for an id
      mismatch, from which both ids read back. The other failures are Python
      exceptions, whose text this model does not give. */
  function ExitText(f: Failure): (r: Option<string>)
    ensures r.Some? <==> f.IdMismatch?
    ensures f.IdMismatch? ==> StartsWith(r.value, ExitPrefix(f.lineNo, f.state))
    ensures f.IdMismatch? ==> ExitIds(r.value, ExitPrefix(f.lineNo, f.state)) == Some((f.expected, f.got))
  {
    if f.IdMismatch? then
      ExitMessageIds(f.lineNo, f.state, f.expected, f.got);
      var m := ExitMessage(f.lineNo, f.state, f.expected, f.got);
      assert m[..|ExitPrefix(f.lineNo, f.state)|] == (ExitPrefix(f.lineNo, f.state) + NatToString(f.expected) + ", got ")[..|ExitPrefix(f.lineNo, f.state)|];
      Some(m)
    else None
  }

  /** The value of a trace's fields. */
  datatype TraceRec = TraceRec(
    id: nat,
    parentId: nat,
    parentSide: nat,
    parent: string,
    file: string,
    line: nat,
    linkType: string,
    sideExits: map<nat, nat>,
    numIr: nat,
    numSn: nat,
    sizeMcode: nat,
    bc: seq<string>,
    ir: seq<string>,
    mc: seq<string>)

  function NewTrace(id: nat): TraceRec {
    TraceRec(id, 0, 0, "", "", 0, "", map[], 0, 0, 0, [], [], [])
  }

  predicate IsRoot(t: TraceRec) { t.parentId == 0 }

  /** The fields data lines update are the same in both. */
  predicate SameBody(t: TraceRec, u: TraceRec) {
    u.id == t.id && u.bc == t.bc && u.ir == t.ir && u.mc == t.mc
    && u.sideExits == t.sideExits && u.numIr == t.numIr && u.numSn == t.numSn
  }

  /** The fields header lines update are the same in both. */
  predicate SameHeader(t: TraceRec, u: TraceRec) {
    u.id == t.id && u.parentId == t.parentId && u.parentSide == t.parentSide
    && u.parent == t.parent && u.file == t.file && u.line == t.line
    && u.linkType == t.linkType && u.sizeMcode == t.sizeMcode
  }

  /** The fields of a start header: the parent only when the group matched. */
  function WithStart(t: TraceRec, m: StartFields): TraceRec {
    var t1 := match m.parent
              case Some(p) => t.(parent := p.text, parentId := p.id, parentSide := p.side)
              case None => t;
    t1.(file := m.file, line := m.line)
  }

  /** `getattr(self, "_process_header_" + state)(line)`. */
  function HeaderStep(st: State, t: TraceRec, line: string): Result<TraceRec, Failure>
  {
    match st
    case Start =>
      (match SearchStart(line)
       case None => Err(NoMatch(line))
       case Some(m) => Ok(WithStart(t, m)))
    case IR => Ok(t)
    case Mcode =>
      (match SearchMcode(line)
       case None => Err(NoMatch(line))
       case Some(z) => Ok(t.(sizeMcode := z)))
    case Stop =>
      (match SearchStop(line)
       case None => Err(NoMatch(line))
       case Some(k) => Ok(t.(linkType := k)))
    case Exit => Ok(t)
    case Abort => Ok(t)
    case Flush => Ok(t)
    case Init => Err(NoHandler(true, Name(st)))
    case Unknown(_) => Err(NoHandler(true, Name(st)))
  }

  /** The side exit a machine-code line jumps to (`->(\d+)`), if any. */
  function ArrowOf(line: string): Option<nat> { SearchArrow(line) }

  /** `self._side_exits[k] += 1` on a defaultdict(int). */
  function Bump(m: map<nat, nat>, a: Option<nat>): map<nat, nat> {
    match a
    case None => m
    case Some(k) => m[k := (if k in m then m[k] else 0) + 1]
  }

  /** `getattr(self, "_process_data_" + state)(line)`. */
  function DataStep(st: State, t: TraceRec, line: string): Result<TraceRec, Failure>
  {
    match st
    case Start => Ok(t.(bc := t.bc + [line]))
    case IR =>
      if Contains(line, "SNAP") then Ok(t.(ir := t.ir + [line], numSn := t.numSn + 1))
      else Ok(t.(ir := t.ir + [line], numIr := t.numIr + 1))
    case Mcode => Ok(t.(mc := t.mc + [line], sideExits := Bump(t.sideExits, ArrowOf(line))))
    case Stop => Ok(t)
    case Exit => Ok(t)
    case Abort => Ok(t)
    case Flush => Ok(t)
    case Init => Err(NoHandler(false, Name(st)))
    case Unknown(_) => Err(NoHandler(false, Name(st)))
  }

  /** A header handler fails exactly when there is none for the state or its
      pattern does not match. */
  lemma HeaderStepFails(st: State, t: TraceRec, line: string)
    ensures HeaderStep(st, t, line).Err? <==>
              st.Init? || st.Unknown?
              || (st.Start? && SearchStart(line).None?)
              || (st.Mcode? && SearchMcode(line).None?)
              || (st.Stop? && SearchStop(line).None?)
    ensures (st.Init? || st.Unknown?) ==> HeaderStep(st, t, line) == Err(NoHandler(true, Name(st)))
  {
  }

  /** A header handler changes only the header fields, and only the start,
      mcode and stop handlers change anything. */
  lemma HeaderStepFields(st: State, t: TraceRec, line: string)
    requires HeaderStep(st, t, line).Ok?
    ensures SameBody(t, HeaderStep(st, t, line).value)
    ensures !st.Start? && !st.Mcode? && !st.Stop? ==> HeaderStep(st, t, line).value == t
  {
  }

  /** What the start and stop handlers store is what their patterns allow. */
  lemma HeaderStepValues(st: State, t: TraceRec, line: string)
    requires HeaderStep(st, t, line).Ok?
    ensures st.Start? ==>
              var f := HeaderStep(st, t, line).value.file;
              |f| > 0 && forall k :: 0 <= k < |f| ==> f[k] != ':'
    ensures st.Stop? ==>
              var lt := HeaderStep(st, t, line).value.linkType;
              |lt| > 0 && forall k :: 0 <= k < |lt| ==> lt[k] != '\n'
    ensures st.Mcode? ==> HeaderStep(st, t, line).value.sizeMcode == SearchMcode(line).value
  {
    if st.Start? {
      SearchStartFile(line);
    }
  }

  /** A data handler fails exactly when there is none for the state; it
      appends the line to the state's dump and changes no header field. */
  lemma DataStepFacts(st: State, t: TraceRec, line: string)
    ensures DataStep(st, t, line).Err? <==> st.Init? || st.Unknown?
    ensures DataStep(st, t, line).Err? ==> DataStep(st, t, line) == Err(NoHandler(false, Name(st)))
    ensures DataStep(st, t, line).Ok? ==>
              var u := DataStep(st, t, line).value;
              && SameHeader(t, u)
              && (st.Start? ==> u.bc == t.bc + [line])
              && (st.IR? ==> u.ir == t.ir + [line] && u.numIr + u.numSn == t.numIr + t.numSn + 1
                             && (u.numSn == t.numSn + 1 <==> Contains(line, "SNAP")))
              && (st.Mcode? ==> u.mc == t.mc + [line])
              && (!st.Start? && !st.IR? && !st.Mcode? ==> u == t)
  {
  }

  // ---------------------------------------------------------------------------
  // What the counters mean

  /** The number of IR lines that are snapshots. */
  function SnapCount(ls: seq<string>): nat {
    if ls == [] then 0 else (if Contains(ls[0], "SNAP") then 1 else 0) + SnapCount(ls[1..])
  }

  /** How many machine-code lines jump to side exit `k`. */
  function ArrowCount(ls: seq<string>, k: nat): nat {
    if ls == [] then 0 else (if ArrowOf(ls[0]) == Some(k) then 1 else 0) + ArrowCount(ls[1..], k)
  }

  /** `m` after counting the exits of `ls`, line by line. */
  function ExitCountsFrom(m: map<nat, nat>, ls: seq<string>): map<nat, nat>
    decreases |ls|
  {
    if ls == [] then m else ExitCountsFrom(Bump(m, ArrowOf(ls[0])), ls[1..])
  }

  function ExitCounts(ls: seq<string>): map<nat, nat> { ExitCountsFrom(map[], ls) }

  /** The counters agree with the dumped code. */
  predicate Consistent(t: TraceRec) {
    t.numSn == SnapCount(t.ir) && t.numIr + t.numSn == |t.ir| && t.sideExits == ExitCounts(t.mc)
  }

  lemma {:induction false} SnapCountAppend(ls: seq<string>, l: string)
    ensures SnapCount(ls + [l]) == SnapCount(ls) + (if Contains(l, "SNAP") then 1 else 0)
  {
    if ls != [] {
      assert (ls + [l])[1..] == ls[1..] + [l];
      SnapCountAppend(ls[1..], l);
    } else {
      assert [l][1..] == [];
    }
  }

  lemma {:induction false} SnapCountBound(ls: seq<string>)
    ensures SnapCount(ls) <= |ls|
  {
    if ls != [] { SnapCountBound(ls[1..]); }
  }

  lemma {:induction false} ExitCountsFromAppend(m: map<nat, nat>, ls: seq<string>, l: string)
    ensures ExitCountsFrom(m, ls + [l]) == Bump(ExitCountsFrom(m, ls), ArrowOf(l))
    decreases |ls|
  {
    if ls != [] {
      assert (ls + [l])[1..] == ls[1..] + [l];
      ExitCountsFromAppend(Bump(m, ArrowOf(ls[0])), ls[1..], l);
    } else {
      assert [l][1..] == [];
    }
  }

  /** Counting from `m` adds each exit's occurrences to what `m` held. */
  lemma {:induction false} ExitCountsFromCounts(m: map<nat, nat>, ls: seq<string>, k: nat)
    ensures k in ExitCountsFrom(m, ls) <==> k in m || ArrowCount(ls, k) > 0
    ensures k in ExitCountsFrom(m, ls) ==>
              ExitCountsFrom(m, ls)[k] == (if k in m then m[k] else 0) + ArrowCount(ls, k)
    decreases |ls|
  {
    if ls != [] {
      ExitCountsFromCounts(Bump(m, ArrowOf(ls[0])), ls[1..], k);
    }
  }

  /** The side-exit table: a key is a jump target of some machine-code line,
      and its count is the number of lines that jump there (so at least 1). */
  lemma ExitCountsMeaning(ls: seq<string>, k: nat)
    ensures k in ExitCounts(ls) <==> ArrowCount(ls, k) > 0
    ensures k in ExitCounts(ls) ==> ExitCounts(ls)[k] == ArrowCount(ls, k) >= 1
  {
    ExitCountsFromCounts(map[], ls, k);
  }

  lemma {:induction false} ArrowCountPositive(ls: seq<string>, k: nat)
    ensures ArrowCount(ls, k) > 0 <==> exists i :: 0 <= i < |ls| && ArrowOf(ls[i]) == Some(k)
  {
    if ls != [] {
      ArrowCountPositive(ls[1..], k);
      if ArrowCount(ls[1..], k) > 0 {
        var i :| 0 <= i < |ls[1..]| && ArrowOf(ls[1..][i]) == Some(k);
        assert ArrowOf(ls[i + 1]) == Some(k);
      }
      if exists i :: 0 <= i < |ls| && ArrowOf(ls[i]) == Some(k) {
        var i :| 0 <= i < |ls| && ArrowOf(ls[i]) == Some(k);
        if i > 0 { assert ArrowOf(ls[1..][i - 1]) == Some(k); }
      }
    }
  }

  lemma NewTraceConsistent(id: nat)
    ensures Consistent(NewTrace(id)) && NewTrace(id).id == id && IsRoot(NewTrace(id))
  {
  }

  /** Every data step keeps the counters in agreement with the dump. */
  lemma DataStepConsistent(st: State, t: TraceRec, line: string)
    requires Consistent(t) && DataStep(st, t, line).Ok?
    ensures Consistent(DataStep(st, t, line).value)
  {
    if st.IR? {
      SnapCountAppend(t.ir, line);
    } else if st.Mcode? {
      ExitCountsFromAppend(map[], t.mc, line);
    }
  }

  lemma HeaderStepConsistent(st: State, t: TraceRec, line: string)
    requires Consistent(t) && HeaderStep(st, t, line).Ok?
    ensures Consistent(HeaderStep(st, t, line).value)
  {
  }

  /** The IR and snapshot counters of a consistent trace split its IR lines. */
  lemma NumIrSnSplit(t: TraceRec)
    requires Consistent(t)
    ensures t.numIr == |t.ir| - SnapCount(t.ir) && t.numSn <= |t.ir|
  {
    SnapCountBound(t.ir);
  }

  // ---------------------------------------------------------------------------
  // The object

  class Trace {
    const id: nat
    var parentId: nat
    var parentSide: nat
    var parent: string
    var file: string
    var line: nat
    var linkType: string
    var sideExits: map<nat, nat>
    var numIr: nat
    var numSn: nat
    var sizeMcode: nat
    var bc: seq<string>
    var ir: seq<string>
    var mc: seq<string>

    function Snapshot(): TraceRec
      reads this
    {
      TraceRec(id, parentId, parentSide, parent, file, line, linkType, sideExits,
               numIr, numSn, sizeMcode, bc, ir, mc)
    }

    constructor(traceId: nat)
      ensures Snapshot() == NewTrace(traceId)
    {
      id := traceId;
      parentId := 0;
      parentSide := 0;
      parent := "";
      file := "";
      line := 0;
      linkType := "";
      sideExits := map[];
      numIr := 0;
      numSn := 0;
      sizeMcode := 0;
      bc := [];
      ir := [];
      mc := [];
    }

    predicate IsRoot()
      reads this
    {
      parentId == 0
    }

    function NumBc(): (n: nat)
      reads this
      ensures n == |Snapshot().bc|
    {
      |bc|
    }

    /** `process_header`: the handler the state names. */
    method ProcessHeader(st: State, l: string) returns (o: Outcome<Failure>)
      modifies this
      ensures match HeaderStep(st, old(Snapshot()), l)
              case Ok(u) => o == Pass && Snapshot() == u
              case Err(e) => o == Fail(e) && Snapshot() == old(Snapshot())
    {
      match st
      case Start => o := HeaderStart(l);
      case IR => o := Pass;
      case Mcode => o := HeaderMcode(l);
      case Stop => o := HeaderStop(l);
      case Exit => o := Pass;
      case Abort => o := Pass;
      case Flush => o := Pass;
      case Init => o := Fail(NoHandler(true, Name(st)));
      case Unknown(_) => o := Fail(NoHandler(true, Name(st)));
    }

    /** `_process_header_start`. */
    method HeaderStart(l: string) returns (o: Outcome<Failure>)
      modifies this
      ensures match SearchStart(l)
              case Some(m) => o == Pass && Snapshot() == WithStart(old(Snapshot()), m)
              case None => o == Fail(NoMatch(l)) && Snapshot() == old(Snapshot())
    {
      var m := SearchStart(l);
      if m.None? {
        return Fail(NoMatch(l));
      }
      if m.value.parent.Some? {
        SetParent(m.value.parent.value);
      }
      file := m.value.file;
      line := m.value.line;
      o := Pass;
    }

    /** The three parent fields, from groups 1-3 of the start pattern. */
    method SetParent(p: ParentRef)
      modifies this
      ensures Snapshot() == old(Snapshot()).(parent := p.text, parentId := p.id, parentSide := p.side)
    {
      parent := p.text;
      parentId := p.id;
      parentSide := p.side;
    }

    method HeaderMcode(l: string) returns (o: Outcome<Failure>)
      modifies this
      ensures match HeaderStep(Mcode, old(Snapshot()), l)
              case Ok(u) => o == Pass && Snapshot() == u
              case Err(e) => o == Fail(e) && Snapshot() == old(Snapshot())
    {
      var m := SearchMcode(l);
      if m.None? {
        return Fail(NoMatch(l));
      }
      sizeMcode := m.value;
      o := Pass;
    }

    method HeaderStop(l: string) returns (o: Outcome<Failure>)
      modifies this
      ensures match HeaderStep(Stop, old(Snapshot()), l)
              case Ok(u) => o == Pass && Snapshot() == u
              case Err(e) => o == Fail(e) && Snapshot() == old(Snapshot())
    {
      var m := SearchStop(l);
      if m.None? {
        return Fail(NoMatch(l));
      }
      linkType := m.value;
      o := Pass;
    }

    /** `process_data`: the handler the state names. */
    method ProcessData(st: State, l: string) returns (o: Outcome<Failure>)
      modifies this
      ensures match DataStep(st, old(Snapshot()), l)
              case Ok(u) => o == Pass && Snapshot() == u
              case Err(e) => o == Fail(e) && Snapshot() == old(Snapshot())
    {
      match st
      case Start => o := DataStart(l);
      case IR => o := DataIR(l);
      case Mcode => o := DataMcode(l);
      case Stop => o := Pass;
      case Exit => o := Pass;
      case Abort => o := Pass;
      case Flush => o := Pass;
      case Init => o := Fail(NoHandler(false, Name(st)));
      case Unknown(_) => o := Fail(NoHandler(false, Name(st)));
    }

    /** `_process_data_start`: a bytecode line. */
    method DataStart(l: string) returns (o: Outcome<Failure>)
      modifies this
      ensures o == Pass && Snapshot() == old(Snapshot()).(bc := old(bc) + [l])
    {
      bc := bc + [l];
      o := Pass;
    }

    /** `_process_data_IR`: an IR line, counted as a snapshot or an instruction. */
    method DataIR(l: string) returns (o: Outcome<Failure>)
      modifies this
      ensures o == Pass
      ensures Snapshot() == if Contains(l, "SNAP") then old(Snapshot()).(ir := old(ir) + [l], numSn := old(numSn) + 1)
                            else old(Snapshot()).(ir := old(ir) + [l], numIr := old(numIr) + 1)
    {
      ir := ir + [l];
      if Contains(l, "SNAP") {
        numSn := numSn + 1;
      } else {
        numIr := numIr + 1;
      }
      o := Pass;
    }

    /** `_process_data_mcode`: a machine-code line, counting a side exit it jumps to. */
    method DataMcode(l: string) returns (o: Outcome<Failure>)
      modifies this
      ensures o == Pass && Snapshot() == old(Snapshot()).(mc := old(mc) + [l], sideExits := Bump(old(sideExits), ArrowOf(l)))
    {
      mc := mc + [l];
      var m := ArrowOf(l);
      if m.Some? {
        var k := m.value;
        sideExits := sideExits[k := (if k in sideExits then sideExits[k] else 0) + 1];
      }
      o := Pass;
    }
  }
}
