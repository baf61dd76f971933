/** The repository's own expectations about its sample dump, restated on the
    records that dump yields: four aborts of the same `print` call on line 1
    of the command line, and one root trace with a side trace and a stub. */
module Scenarios {
  import opened Outcomes
  import opened Text
  import opened Sorting
  import opened Counting
  import opened AbortReasons
  import opened Traces
  import opened TraceForests
  import opened ViewAbortReasonsList
  import opened ViewAbortReasonsDetails

  const PrintAbort := AbortReason("=(command line)", 1, "NYI: FastFunc print")

  function FourAborts(): seq<AbortReason> { [PrintAbort, PrintAbort, PrintAbort, PrintAbort] }

  /** A sorted singleton set is that one key. */
  lemma SortedSingleString(x: string)
    ensures SortedStrings({x}) == [x]
  {
    SortedStringsFacts({x});
  }

  lemma SortedSingleNat(x: nat)
    ensures SortedNats({x}) == [x]
  {
    SortedNatsFacts({x});
  }

  /** Records that are all the same record have one key, selecting all of them. */
  lemma {:induction false} AllSame<T, K>(xs: seq<T>, a: T, key: T -> K)
    requires |xs| > 0 && forall i :: 0 <= i < |xs| ==> xs[i] == a
    ensures FirstSeen(xs, key) == [key(a)]
    ensures Select(xs, key, key(a)) == xs
  {
    var init := xs[..|xs| - 1];
    if init != [] {
      AllSame(init, a, key);
    }
    assert xs == init + [a];
  }

  /** The four aborts are one reason, counted four times. */
  lemma FourTally()
    ensures Tally(FourAborts()) == [("NYI: FastFunc print", 4)]
  {
    AllSame(FourAborts(), PrintAbort, ReasonOf);
  }

  /** The abort list of the sample dump: its one reason, with count 4. */
  lemma FourRows()
    ensures Rows(FourAborts()) == [("NYI: FastFunc print", 4)]
  {
    FourTally();
  }

  /** Counting one more of the only abort seen so far. */
  lemma AddAgain(f: string, l: nat, r: string, c: nat)
    ensures Add(map[f := map[l := map[r := c]]], AbortReason(f, l, r)) == map[f := map[l := map[r := c + 1]]]
  {
    var lm: map<string, nat> := map[r := c];
    assert lm[r := c + 1] == map[r := c + 1];
    var fm: map<nat, map<string, nat>> := map[l := lm];
    assert fm[l := map[r := c + 1]] == map[l := map[r := c + 1]];
    var m: Nest := map[f := fm];
    assert m[f := map[l := map[r := c + 1]]] == map[f := map[l := map[r := c + 1]]];
  }

  /** The nested dictionaries after counting the four aborts. */
  lemma FourNest()
    ensures NestOf(FourAborts()) == map["=(command line)" := map[1 := map["NYI: FastFunc print" := 4]]]
  {
    var ars := FourAborts();
    var f, r := "=(command line)", "NYI: FastFunc print";
    assert ars[..3] == [PrintAbort, PrintAbort, PrintAbort];
    assert ars[..3][..2] == [PrintAbort, PrintAbort];
    assert ars[..3][..2][..1] == [PrintAbort];
    assert ars[..3][..2][..1][..0] == [];
    assert NestOf([PrintAbort]) == map[f := map[1 := map[r := 1]]];
    AddAgain(f, 1, r, 1);
    AddAgain(f, 1, r, 2);
    AddAgain(f, 1, r, 3);
  }

  const FourEntry := FileEntry("=(command line)", [LineEntry(1, [("NYI: FastFunc print", 4)])])

  /** The one line entry: line 1, its one reason counted four times. */
  lemma FourLineEntry()
    ensures LineEntryOf(map[1 := map["NYI: FastFunc print" := 4]], 1) == FourEntry.lines[0]
  {
    var r := "NYI: FastFunc print";
    var rm: map<string, nat> := map[r := 4];
    assert rm.Keys == {r};
    SortedSingleString(r);
    assert ReasonEntries(rm, [r]) == [(r, 4)];
  }

  /** The one file entry. */
  lemma FourFileEntry()
    ensures FileEntryOf(map["=(command line)" := map[1 := map["NYI: FastFunc print" := 4]]], "=(command line)")
         == FourEntry
  {
    var lm: map<nat, map<string, nat>> := map[1 := map["NYI: FastFunc print" := 4]];
    assert lm.Keys == {1};
    SortedSingleNat(1);
    FourLineEntry();
    assert LineEntries(lm, [1]) == [FourEntry.lines[0]];
  }

  /** The report of the four aborts: one file, one line, one reason. */
  lemma FourEntries()
    ensures Report(NestOf(FourAborts())) == [FourEntry]
  {
    FourNest();
    var f := "=(command line)";
    var m: Nest := map[f := map[1 := map["NYI: FastFunc print" := 4]]];
    assert m.Keys == {f};
    SortedSingleString(f);
    FourFileEntry();
    assert FileEntries(m, [f]) == [FourEntry];
  }

  /** One file with one line and one reason is written as three lines. */
  lemma SingleText(f: string, l: nat, e: (string, nat))
    ensures ReportText([FileEntry(f, [LineEntry(l, [e])])]) == [FileHead(f), LineHead(l), ReasonText(e)]
  {
    assert ReasonsText([e]) == [ReasonText(e)];
    assert LinesText([LineEntry(l, [e])]) == [LineHead(l), ReasonText(e)];
  }

  lemma FourFileHead()
    ensures FileHead("=(command line)") == "=(command line):\n"
  {
  }

  lemma FourLineHead()
    ensures LineHead(1) == "\tline 1:\n"
  {
    assert NatToString(1) == "1";
  }

  lemma FourReasonText()
    ensures ReasonText(("NYI: FastFunc print", 4)) == "\t\tNYI: FastFunc print: 4\n"
  {
    assert NatToString(4) == "4";
  }

  /** The abort details of the sample dump: the file, its line and the reason with its count. */
  lemma FourReport()
    ensures ReportText(Report(NestOf(FourAborts())))
         == ["=(command line):\n", "\tline 1:\n", "\t\tNYI: FastFunc print: 4\n"]
  {
    FourEntries();
    SingleText("=(command line)", 1, ("NYI: FastFunc print", 4));
    FourFileHead();
    FourLineHead();
    FourReasonText();
  }

  /** The three traces of the sample dump: root 1, side trace 2 of exit 1 of
      trace 1, and stub 3 of exit 1 of trace 2. */
  function SampleTraces(): seq<TraceRec> {
    [NewTrace(1).(file := "=(command line)", line := 1, linkType := "loop"),
     NewTrace(2).(parentId := 1, parentSide := 1, parent := "1/1", file := "=(command line)", line := 1, linkType := "1"),
     NewTrace(3).(parentId := 2, parentSide := 1, parent := "2/1", file := "=(command line)", line := 1,
                  linkType := "interpreter")]
  }

  /** One bush, keyed by the root's id 1, holding all three traces in order. */
  lemma SampleBushes()
    ensures Bushes(SampleTraces()) == Ok(map[1 := SampleTraces()])
  {
    var ts := SampleTraces();
    var g1 := Grouping(map[1 := [ts[0]]], map[1 := 1]);
    var g2 := Grouping(g1.forest[1 := [ts[0], ts[1]]], g1.roots[2 := 1]);
    var g3 := Grouping(g2.forest[1 := ts], g2.roots[3 := 1]);
    assert [ts[0]] + [ts[1]] == [ts[0], ts[1]];
    assert [ts[0], ts[1]] + [ts[2]] == ts;
    assert Grow(NoGrouping, ts[0]) == Ok(g1);
    assert Grow(g1, ts[1]) == Ok(g2);
    assert Grow(g2, ts[2]) == Ok(g3);
    assert ts[1..][1..][1..] == [];
    assert GroupFrom(g3, []) == Ok(g3);
    assert GroupFrom(g2, ts[1..][1..]) == Ok(g3);
    assert GroupFrom(g1, ts[1..]) == Ok(g3);
    assert g3.forest == map[1 := ts];
  }
}
