/** The detailed abort report (view/abortreasonsdetails.py): the aborts are
    counted per file, per line within the file and per reason within the
    line, and the counts are written file by file, line by line and reason
    by reason, each level in ascending order. */
module ViewAbortReasonsDetails {
  import opened Outcomes
  import opened Text
  import opened Sorting
  import opened Counting
  import opened AbortReasons
  import opened Seqs

  /** `files[name][line][reason]`: the three nested counting dictionaries. */
  type Nest = map<string, map<nat, map<string, nat>>>

  /** `files[ar.file][ar.line][ar.reason] += 1`, each missing level starting empty. */
  function Add(m: Nest, a: AbortReason): Nest {
    var fm: map<nat, map<string, nat>> := if a.file in m then m[a.file] else map[];
    var lm: map<string, nat> := if a.line in fm then fm[a.line] else map[];
    var c := if a.reason in lm then lm[a.reason] else 0;
    m[a.file := fm[a.line := lm[a.reason := c + 1]]]
  }

  /** The dictionaries after counting every abort of `ars` in turn. */
  function NestOf(ars: seq<AbortReason>): Nest {
    if ars == [] then map[] else Add(NestOf(ars[..|ars| - 1]), ars[|ars| - 1])
  }

  /** The counting loop of `_render_txt`. */
  method CountNested(ars: seq<AbortReason>) returns (files: Nest)
    ensures files == NestOf(ars)
  {
    files := map[];
    for i := 0 to |ars|
      invariant files == NestOf(ars[..i])
    {
      var ar := ars[i];
      var fm: map<nat, map<string, nat>> := if ar.file in files then files[ar.file] else map[];
      var lm: map<string, nat> := if ar.line in fm then fm[ar.line] else map[];
      var c := if ar.reason in lm then lm[ar.reason] else 0;
      files := files[ar.file := fm[ar.line := lm[ar.reason := c + 1]]];
      assert ars[..i + 1][..i] == ars[..i];
    }
    assert ars[..|ars|] == ars;
  }

  // The aborts a key, a key pair or a key triple selects.

  function ByFile(ars: seq<AbortReason>, f: string): seq<AbortReason> {
    Select(ars, FileOf, f)
  }

  function ByLine(ars: seq<AbortReason>, f: string, l: nat): seq<AbortReason> {
    Select(ByFile(ars, f), LineOf, l)
  }

  function ByAll(ars: seq<AbortReason>, f: string, l: nat, r: string): seq<AbortReason> {
    Select(ByLine(ars, f, l), ReasonOf, r)
  }

  /** Every file some abort names is a key, and no other. */
  ghost predicate FilesAgree(m: Nest, ars: seq<AbortReason>) {
    forall f :: f in m <==> |ByFile(ars, f)| > 0
  }

  /** Under a file, every line some abort of that file names is a key, and no other. */
  ghost predicate LinesAgree(m: Nest, ars: seq<AbortReason>) {
    forall f, l :: f in m ==> (l in m[f] <==> |ByLine(ars, f, l)| > 0)
  }

  /** Under a file and line, every reason an abort there names is a key, and no other. */
  ghost predicate ReasonsAgree(m: Nest, ars: seq<AbortReason>) {
    forall f, l, r :: f in m && l in m[f] ==> (r in m[f][l] <==> |ByAll(ars, f, l, r)| > 0)
  }

  /** Each count is the number of aborts with that file, line and reason. */
  ghost predicate CountsAgree(m: Nest, ars: seq<AbortReason>) {
    forall f, l, r :: f in m && l in m[f] && r in m[f][l] ==> m[f][l][r] == |ByAll(ars, f, l, r)|
  }

  ghost predicate Describes(m: Nest, ars: seq<AbortReason>) {
    FilesAgree(m, ars) && LinesAgree(m, ars) && ReasonsAgree(m, ars) && CountsAgree(m, ars)
  }

  lemma ByFileSnoc(ars: seq<AbortReason>, a: AbortReason, f: string)
    ensures ByFile(ars + [a], f) == ByFile(ars, f) + (if a.file == f then [a] else [])
  {
    SelectSnoc(ars, a, FileOf, f);
  }

  lemma ByLineSnoc(ars: seq<AbortReason>, a: AbortReason, f: string, l: nat)
    ensures ByLine(ars + [a], f, l) == ByLine(ars, f, l) + (if a.file == f && a.line == l then [a] else [])
  {
    ByFileSnoc(ars, a, f);
    if a.file == f {
      SelectSnoc(ByFile(ars, f), a, LineOf, l);
    } else {
      assert ByFile(ars, f) + [] == ByFile(ars, f);
    }
  }

  lemma ByAllSnoc(ars: seq<AbortReason>, a: AbortReason, f: string, l: nat, r: string)
    ensures ByAll(ars + [a], f, l, r) ==
            ByAll(ars, f, l, r) + (if a.file == f && a.line == l && a.reason == r then [a] else [])
  {
    ByLineSnoc(ars, a, f, l);
    if a.file == f && a.line == l {
      SelectSnoc(ByLine(ars, f, l), a, ReasonOf, r);
    } else {
      assert ByLine(ars, f, l) + [] == ByLine(ars, f, l);
    }
  }

  lemma AddFiles(m: Nest, ars: seq<AbortReason>, a: AbortReason)
    requires FilesAgree(m, ars)
    ensures FilesAgree(Add(m, a), ars + [a])
  {
    forall f ensures f in Add(m, a) <==> |ByFile(ars + [a], f)| > 0 {
      ByFileSnoc(ars, a, f);
    }
  }

  lemma AddLines(m: Nest, ars: seq<AbortReason>, a: AbortReason)
    requires FilesAgree(m, ars) && LinesAgree(m, ars)
    ensures LinesAgree(Add(m, a), ars + [a])
  {
    forall f, l | f in Add(m, a) ensures l in Add(m, a)[f] <==> |ByLine(ars + [a], f, l)| > 0 {
      ByLineSnoc(ars, a, f, l);
      if f !in m {
        assert |ByFile(ars, f)| == 0;
      }
    }
  }

  lemma AddReasons(m: Nest, ars: seq<AbortReason>, a: AbortReason)
    requires FilesAgree(m, ars) && LinesAgree(m, ars) && ReasonsAgree(m, ars)
    ensures ReasonsAgree(Add(m, a), ars + [a])
  {
    var m' := Add(m, a);
    forall f, l, r | f in m' && l in m'[f] ensures r in m'[f][l] <==> |ByAll(ars + [a], f, l, r)| > 0 {
      ByAllSnoc(ars, a, f, l, r);
      if f !in m {
        assert |ByFile(ars, f)| == 0;
      } else if l !in m[f] {
        assert |ByLine(ars, f, l)| == 0;
      }
    }
  }

  lemma AddCounts(m: Nest, ars: seq<AbortReason>, a: AbortReason)
    requires FilesAgree(m, ars) && LinesAgree(m, ars) && ReasonsAgree(m, ars) && CountsAgree(m, ars)
    ensures CountsAgree(Add(m, a), ars + [a])
  {
    var m' := Add(m, a);
    forall f, l, r | f in m' && l in m'[f] && r in m'[f][l]
      ensures m'[f][l][r] == |ByAll(ars + [a], f, l, r)|
    {
      ByAllSnoc(ars, a, f, l, r);
      if f !in m {
        assert |ByFile(ars, f)| == 0;
      } else if l !in m[f] {
        assert |ByLine(ars, f, l)| == 0;
      } else if r !in m[f][l] {
        assert |ByAll(ars, f, l, r)| == 0;
      }
    }
  }

  lemma AddDescribes(m: Nest, ars: seq<AbortReason>, a: AbortReason)
    requires Describes(m, ars)
    ensures Describes(Add(m, a), ars + [a])
  {
    AddFiles(m, ars, a);
    AddLines(m, ars, a);
    AddReasons(m, ars, a);
    AddCounts(m, ars, a);
  }

  /** The counting loop leaves the dictionaries describing the aborts. */
  lemma {:induction false} NestDescribes(ars: seq<AbortReason>)
    ensures Describes(NestOf(ars), ars)
  {
    if ars == [] {
    } else {
      var init := ars[..|ars| - 1];
      NestDescribes(init);
      AddDescribes(NestOf(init), init, ars[|ars| - 1]);
      SplitLast(ars);
    }
  }

  lemma NestFiles(ars: seq<AbortReason>)
    ensures FilesAgree(NestOf(ars), ars)
  {
    NestDescribes(ars);
  }

  lemma NestLines(ars: seq<AbortReason>)
    ensures LinesAgree(NestOf(ars), ars)
  {
    NestDescribes(ars);
  }

  lemma NestReasons(ars: seq<AbortReason>)
    ensures ReasonsAgree(NestOf(ars), ars) && CountsAgree(NestOf(ars), ars)
  {
    NestDescribes(ars);
  }

  // The report the writing loops produce: files, lines within a file and
  // reasons within a line, each with what is written under it.

  datatype LineEntry = LineEntry(line: nat, reasons: seq<(string, nat)>)
  datatype FileEntry = FileEntry(name: string, lines: seq<LineEntry>)

  lemma LexLeOrder()
    ensures TotalOrder(LexLe)
  {
    forall a, b ensures LexLe(a, b) || LexLe(b, a) {
      LexLeTotal(a, b);
    }
    forall a, b | LexLe(a, b) && LexLe(b, a) ensures a == b {
      LexLeAntisymmetric(a, b);
    }
    forall a, b, c | LexLe(a, b) && LexLe(b, c) ensures LexLe(a, c) {
      LexLeTransitive(a, b, c);
    }
  }

  /** `sorted(keys)` for strings. */
  function SortedStrings(s: set<string>): seq<string> {
    LexLeOrder();
    SortSet(s, LexLe)
  }

  /** `sorted(keys)` for line numbers. */
  function SortedNats(s: set<nat>): seq<nat> {
    NatLeTotal();
    SortSet(s, NatLe)
  }

  lemma SortedStringsFacts(s: set<string>)
    ensures forall x :: x in s <==> x in SortedStrings(s)
    ensures forall i, j :: 0 <= i < j < |SortedStrings(s)| ==>
      LexLe(SortedStrings(s)[i], SortedStrings(s)[j]) && SortedStrings(s)[i] != SortedStrings(s)[j]
  {
    LexLeOrder();
    SortSetFacts(s, LexLe);
  }

  lemma SortedNatsFacts(s: set<nat>)
    ensures forall x :: x in s <==> x in SortedNats(s)
    ensures forall i, j :: 0 <= i < j < |SortedNats(s)| ==>
      SortedNats(s)[i] < SortedNats(s)[j]
  {
    NatLeTotal();
    SortSetFacts(s, NatLe);
    assert forall i, j :: 0 <= i < j < |SortedNats(s)| ==> NatLe(SortedNats(s)[i], SortedNats(s)[j]);
  }

  function ReasonEntries(rm: map<string, nat>, rs: seq<string>): (es: seq<(string, nat)>)
    requires forall i :: 0 <= i < |rs| ==> rs[i] in rm
    ensures |es| == |rs|
    ensures forall i :: 0 <= i < |rs| ==> es[i] == (rs[i], rm[rs[i]])
  {
    if rs == [] then []
    else ReasonEntries(rm, rs[..|rs| - 1]) + [(rs[|rs| - 1], rm[rs[|rs| - 1]])]
  }

  function LineEntryOf(lm: map<nat, map<string, nat>>, l: nat): LineEntry
    requires l in lm
  {
    SortedStringsFacts(lm[l].Keys);
    LineEntry(l, ReasonEntries(lm[l], SortedStrings(lm[l].Keys)))
  }

  function LineEntries(lm: map<nat, map<string, nat>>, ls: seq<nat>): (es: seq<LineEntry>)
    requires forall i :: 0 <= i < |ls| ==> ls[i] in lm
    ensures |es| == |ls|
  {
    if ls == [] then []
    else LineEntries(lm, ls[..|ls| - 1]) + [LineEntryOf(lm, ls[|ls| - 1])]
  }

  lemma {:induction false} LineEntryAt(lm: map<nat, map<string, nat>>, ls: seq<nat>, i: nat)
    requires forall j :: 0 <= j < |ls| ==> ls[j] in lm
    requires i < |ls|
    ensures LineEntries(lm, ls)[i] == LineEntryOf(lm, ls[i])
  {
    if i < |ls| - 1 {
      LineEntryAt(lm, ls[..|ls| - 1], i);
    }
  }

  function FileEntryOf(m: Nest, f: string): FileEntry
    requires f in m
  {
    SortedNatsFacts(m[f].Keys);
    FileEntry(f, LineEntries(m[f], SortedNats(m[f].Keys)))
  }

  function FileEntries(m: Nest, fs: seq<string>): (es: seq<FileEntry>)
    requires forall i :: 0 <= i < |fs| ==> fs[i] in m
    ensures |es| == |fs|
  {
    if fs == [] then []
    else FileEntries(m, fs[..|fs| - 1]) + [FileEntryOf(m, fs[|fs| - 1])]
  }

  lemma {:induction false} FileEntryAt(m: Nest, fs: seq<string>, i: nat)
    requires forall j :: 0 <= j < |fs| ==> fs[j] in m
    requires i < |fs|
    ensures FileEntries(m, fs)[i] == FileEntryOf(m, fs[i])
  {
    if i < |fs| - 1 {
      FileEntryAt(m, fs[..|fs| - 1], i);
    }
  }

  /** The whole report, files in `sorted` order. */
  function Report(m: Nest): seq<FileEntry> {
    SortedStringsFacts(m.Keys);
    FileEntries(m, SortedStrings(m.Keys))
  }

  // The text written for a report.

  function FileHead(name: string): string { name + ":\n" }
  function LineHead(l: nat): string { "\tline " + NatToString(l) + ":\n" }
  function ReasonText(e: (string, nat)): string { "\t\t" + e.0 + ": " + NatToString(e.1) + "\n" }

  function ReasonsText(es: seq<(string, nat)>): seq<string> {
    if es == [] then [] else ReasonsText(es[..|es| - 1]) + [ReasonText(es[|es| - 1])]
  }

  function LineText(e: LineEntry): seq<string> {
    [LineHead(e.line)] + ReasonsText(e.reasons)
  }

  function LinesText(es: seq<LineEntry>): seq<string> {
    if es == [] then [] else LinesText(es[..|es| - 1]) + LineText(es[|es| - 1])
  }

  function FileText(e: FileEntry): seq<string> {
    [FileHead(e.name)] + LinesText(e.lines)
  }

  function ReportText(es: seq<FileEntry>): seq<string> {
    if es == [] then [] else ReportText(es[..|es| - 1]) + FileText(es[|es| - 1])
  }

  lemma ReasonEntriesSnoc(rm: map<string, nat>, rs: seq<string>, i: nat)
    requires forall j :: 0 <= j < |rs| ==> rs[j] in rm
    requires i < |rs|
    ensures ReasonEntries(rm, rs[..i + 1]) == ReasonEntries(rm, rs[..i]) + [(rs[i], rm[rs[i]])]
  {
    PrefixSnoc(rs, i);
  }

  lemma LineEntriesSnoc(lm: map<nat, map<string, nat>>, ls: seq<nat>, i: nat)
    requires forall j :: 0 <= j < |ls| ==> ls[j] in lm
    requires i < |ls|
    ensures LineEntries(lm, ls[..i + 1]) == LineEntries(lm, ls[..i]) + [LineEntryOf(lm, ls[i])]
  {
    PrefixSnoc(ls, i);
  }

  lemma FileEntriesSnoc(m: Nest, fs: seq<string>, i: nat)
    requires forall j :: 0 <= j < |fs| ==> fs[j] in m
    requires i < |fs|
    ensures FileEntries(m, fs[..i + 1]) == FileEntries(m, fs[..i]) + [FileEntryOf(m, fs[i])]
  {
    PrefixSnoc(fs, i);
  }

  lemma ReasonsTextSnoc(es: seq<(string, nat)>, e: (string, nat))
    ensures ReasonsText(es + [e]) == ReasonsText(es) + [ReasonText(e)]
  {
    assert (es + [e])[..|es|] == es;
  }

  lemma LinesTextSnoc(es: seq<LineEntry>, e: LineEntry)
    ensures LinesText(es + [e]) == LinesText(es) + LineText(e)
  {
    assert (es + [e])[..|es|] == es;
  }

  lemma ReportTextSnoc(es: seq<FileEntry>, e: FileEntry)
    ensures ReportText(es + [e]) == ReportText(es) + FileText(e)
  {
    assert (es + [e])[..|es|] == es;
  }

  /** Writing one more reason line extends the text by that line. */
  lemma ReasonsStep(w: seq<string>, rm: map<string, nat>, rs: seq<string>, i: nat)
    requires forall j :: 0 <= j < |rs| ==> rs[j] in rm
    requires i < |rs|
    ensures w + ReasonsText(ReasonEntries(rm, rs[..i])) + [ReasonText((rs[i], rm[rs[i]]))]
         == w + ReasonsText(ReasonEntries(rm, rs[..i + 1]))
  {
    ReasonEntriesSnoc(rm, rs, i);
    ReasonsTextSnoc(ReasonEntries(rm, rs[..i]), (rs[i], rm[rs[i]]));
    AppendAssoc(w, ReasonsText(ReasonEntries(rm, rs[..i])), [ReasonText((rs[i], rm[rs[i]]))]);
  }

  /** Writing one more line block extends the text by that block. */
  lemma LinesStep(w: seq<string>, lm: map<nat, map<string, nat>>, ls: seq<nat>, i: nat)
    requires forall j :: 0 <= j < |ls| ==> ls[j] in lm
    requires i < |ls|
    ensures w + LinesText(LineEntries(lm, ls[..i])) + LineText(LineEntryOf(lm, ls[i]))
         == w + LinesText(LineEntries(lm, ls[..i + 1]))
  {
    LineEntriesSnoc(lm, ls, i);
    LinesTextSnoc(LineEntries(lm, ls[..i]), LineEntryOf(lm, ls[i]));
    AppendAssoc(w, LinesText(LineEntries(lm, ls[..i])), LineText(LineEntryOf(lm, ls[i])));
  }

  /** Writing one more file block, taking the writes from `w1` to `w2`,
      extends the text by that block. */
  lemma FilesStep(w0: seq<string>, w1: seq<string>, w2: seq<string>, m: Nest, fs: seq<string>, i: nat)
    requires forall j :: 0 <= j < |fs| ==> fs[j] in m
    requires i < |fs|
    requires w1 == w0 + ReportText(FileEntries(m, fs[..i]))
    requires w2 == w1 + FileText(FileEntryOf(m, fs[i]))
    ensures w2 == w0 + ReportText(FileEntries(m, fs[..i + 1]))
  {
    FileEntriesSnoc(m, fs, i);
    ReportTextSnoc(FileEntries(m, fs[..i]), FileEntryOf(m, fs[i]));
    AppendAssoc(w0, ReportText(FileEntries(m, fs[..i])), FileText(FileEntryOf(m, fs[i])));
  }

  // The writing loops of `_render_txt`, each over keys already sorted.

  method WriteReasons(out: TextOut, rm: map<string, nat>, reasons: seq<string>)
    requires forall j :: 0 <= j < |reasons| ==> reasons[j] in rm
    modifies out
    ensures out.writes == old(out.writes) + ReasonsText(ReasonEntries(rm, reasons))
  {
    for i := 0 to |reasons|
      invariant out.writes == old(out.writes) + ReasonsText(ReasonEntries(rm, reasons[..i]))
    {
      out.Write(ReasonText((reasons[i], rm[reasons[i]])));
      ReasonsStep(old(out.writes), rm, reasons, i);
    }
    assert reasons[..|reasons|] == reasons;
  }

  method WriteLine(out: TextOut, lm: map<nat, map<string, nat>>, l: nat)
    requires l in lm
    modifies out
    ensures out.writes == old(out.writes) + LineText(LineEntryOf(lm, l))
  {
    out.Write(LineHead(l));
    var reasons := SortedStrings(lm[l].Keys);
    SortedStringsFacts(lm[l].Keys);
    WriteReasons(out, lm[l], reasons);
    AppendAssoc(old(out.writes), [LineHead(l)], ReasonsText(ReasonEntries(lm[l], reasons)));
  }

  method WriteLines(out: TextOut, lm: map<nat, map<string, nat>>, lines: seq<nat>)
    requires forall j :: 0 <= j < |lines| ==> lines[j] in lm
    modifies out
    ensures out.writes == old(out.writes) + LinesText(LineEntries(lm, lines))
  {
    for i := 0 to |lines|
      invariant out.writes == old(out.writes) + LinesText(LineEntries(lm, lines[..i]))
    {
      WriteLine(out, lm, lines[i]);
      LinesStep(old(out.writes), lm, lines, i);
    }
    assert lines[..|lines|] == lines;
  }

  method WriteFile(out: TextOut, m: Nest, f: string)
    requires f in m
    modifies out
    ensures out.writes == old(out.writes) + FileText(FileEntryOf(m, f))
  {
    out.Write(FileHead(f));
    var lines := SortedNats(m[f].Keys);
    SortedNatsFacts(m[f].Keys);
    WriteLines(out, m[f], lines);
    AppendAssoc(old(out.writes), [FileHead(f)], LinesText(LineEntries(m[f], lines)));
  }

  /** One turn of the loop over the files: the `i`-th file's block follows the
      blocks of the files before it. */
  method WriteFileAt(out: TextOut, m: Nest, names: seq<string>, i: nat, ghost w0: seq<string>)
    requires forall j :: 0 <= j < |names| ==> names[j] in m
    requires i < |names|
    requires out.writes == w0 + ReportText(FileEntries(m, names[..i]))
    modifies out
    ensures out.writes == w0 + ReportText(FileEntries(m, names[..i + 1]))
  {
    ghost var w1 := out.writes;
    WriteFile(out, m, names[i]);
    FilesStep(w0, w1, out.writes, m, names, i);
  }

  method WriteFiles(out: TextOut, m: Nest, names: seq<string>)
    requires forall j :: 0 <= j < |names| ==> names[j] in m
    modifies out
    ensures out.writes == old(out.writes) + ReportText(FileEntries(m, names))
  {
    for i := 0 to |names|
      invariant out.writes == old(out.writes) + ReportText(FileEntries(m, names[..i]))
    {
      WriteFileAt(out, m, names, i, old(out.writes));
    }
    assert names[..|names|] == names;
  }

  /** The writing loops: the whole report, file by file. */
  method WriteReport(out: TextOut, m: Nest)
    modifies out
    ensures out.writes == old(out.writes) + ReportText(Report(m))
  {
    var names := SortedStrings(m.Keys);
    SortedStringsFacts(m.Keys);
    WriteFiles(out, m, names);
  }

  // What the report says about the aborts.

  /** Within a file, lines are listed in ascending order. */
  predicate LinesAscending(e: FileEntry) {
    forall j, k :: 0 <= j < k < |e.lines| ==> e.lines[j].line < e.lines[k].line
  }

  /** Within a file, a line is listed exactly when some abort names that file and line. */
  ghost predicate LinesPresent(e: FileEntry, ars: seq<AbortReason>) {
    forall l :: (exists j :: 0 <= j < |e.lines| && e.lines[j].line == l) <==> |ByLine(ars, e.name, l)| > 0
  }

  /** Within a line, reasons are listed in ascending order, each once. */
  predicate ReasonsAscending(e: LineEntry) {
    forall p, q :: 0 <= p < q < |e.reasons| ==>
      LexLe(e.reasons[p].0, e.reasons[q].0) && e.reasons[p].0 != e.reasons[q].0
  }

  /** Within a line of file `f`, a reason is listed exactly when some abort there names it. */
  ghost predicate ReasonsPresent(e: LineEntry, f: string, ars: seq<AbortReason>) {
    forall r :: (exists p :: 0 <= p < |e.reasons| && e.reasons[p].0 == r) <==> |ByAll(ars, f, e.line, r)| > 0
  }

  /** Each listed count is the number of aborts with that file, line and reason. */
  ghost predicate ReasonsCounted(e: LineEntry, f: string, ars: seq<AbortReason>) {
    forall p :: 0 <= p < |e.reasons| ==> e.reasons[p].1 == |ByAll(ars, f, e.line, e.reasons[p].0)|
  }

  /** The entries for distinct ascending reasons are ascending and distinct. */
  lemma EntriesOfReasons(rm: map<string, nat>, rs: seq<string>, l: nat)
    requires forall j :: 0 <= j < |rs| ==> rs[j] in rm
    requires forall p, q :: 0 <= p < q < |rs| ==> LexLe(rs[p], rs[q]) && rs[p] != rs[q]
    ensures ReasonsAscending(LineEntry(l, ReasonEntries(rm, rs)))
  {
  }

  /** A line entry listing each key of `rm` once, with its count, lists exactly
      the reasons some abort there names, each with the number of such aborts. */
  lemma ReasonsListed(rm: map<string, nat>, rs: seq<string>, f: string, l: nat, ars: seq<AbortReason>)
    requires forall p :: 0 <= p < |rs| ==> rs[p] in rm
    requires forall x :: x in rm <==> x in rs
    requires forall r :: r in rm <==> |ByAll(ars, f, l, r)| > 0
    requires forall r :: r in rm ==> rm[r] == |ByAll(ars, f, l, r)|
    ensures ReasonsPresent(LineEntry(l, ReasonEntries(rm, rs)), f, ars)
    ensures ReasonsCounted(LineEntry(l, ReasonEntries(rm, rs)), f, ars)
  {
    var es := ReasonEntries(rm, rs);
    forall r ensures (exists p :: 0 <= p < |es| && es[p].0 == r) <==> |ByAll(ars, f, l, r)| > 0 {
      if r in rm {
        var p :| 0 <= p < |rs| && rs[p] == r;
        assert es[p].0 == r;
      }
    }
  }

  lemma LineEntryFacts(m: Nest, ars: seq<AbortReason>, f: string, l: nat)
    requires ReasonsAgree(m, ars) && CountsAgree(m, ars)
    requires f in m && l in m[f]
    ensures LineEntryOf(m[f], l).line == l
    ensures ReasonsAscending(LineEntryOf(m[f], l))
    ensures ReasonsPresent(LineEntryOf(m[f], l), f, ars)
    ensures ReasonsCounted(LineEntryOf(m[f], l), f, ars)
  {
    var rm := m[f][l];
    var rs := SortedStrings(rm.Keys);
    SortedStringsFacts(rm.Keys);
    EntriesOfReasons(rm, rs, l);
    assert forall r :: r in rm <==> |ByAll(ars, f, l, r)| > 0;
    assert forall r :: r in rm ==> rm[r] == |ByAll(ars, f, l, r)|;
    ReasonsListed(rm, rs, f, l, ars);
  }

  /** The entries for ascending lines are ascending and list exactly those lines. */
  lemma EntriesOfLines(lm: map<nat, map<string, nat>>, ls: seq<nat>, name: string)
    requires forall j :: 0 <= j < |ls| ==> ls[j] in lm
    requires forall j, k :: 0 <= j < k < |ls| ==> ls[j] < ls[k]
    ensures forall j :: 0 <= j < |ls| ==> LineEntries(lm, ls)[j].line == ls[j]
    ensures LinesAscending(FileEntry(name, LineEntries(lm, ls)))
  {
    forall j | 0 <= j < |ls| ensures LineEntries(lm, ls)[j].line == ls[j] {
      LineEntryAt(lm, ls, j);
    }
  }

  /** A file entry whose lines are exactly the keys of the file lists exactly
      the lines some abort of that file names. */
  lemma LinesListed(e: FileEntry, ls: seq<nat>, keys: set<nat>, ars: seq<AbortReason>)
    requires |e.lines| == |ls| && forall j :: 0 <= j < |ls| ==> e.lines[j].line == ls[j]
    requires forall x :: x in keys <==> x in ls
    requires forall l :: l in keys <==> |ByLine(ars, e.name, l)| > 0
    ensures LinesPresent(e, ars)
  {
    forall l ensures (exists j :: 0 <= j < |e.lines| && e.lines[j].line == l) <==> |ByLine(ars, e.name, l)| > 0 {
      if |ByLine(ars, e.name, l)| > 0 {
        assert l in ls;
        var j :| 0 <= j < |ls| && ls[j] == l;
        assert e.lines[j].line == l;
      }
    }
  }

  lemma FileEntryFacts(m: Nest, ars: seq<AbortReason>, f: string)
    requires LinesAgree(m, ars)
    requires f in m
    ensures FileEntryOf(m, f).name == f
    ensures LinesAscending(FileEntryOf(m, f))
    ensures LinesPresent(FileEntryOf(m, f), ars)
  {
    var ls := SortedNats(m[f].Keys);
    var e := FileEntryOf(m, f);
    SortedNatsFacts(m[f].Keys);
    assert e.lines == LineEntries(m[f], ls);
    EntriesOfLines(m[f], ls, f);
    assert forall l :: l in m[f].Keys <==> |ByLine(ars, f, l)| > 0;
    LinesListed(e, ls, m[f].Keys, ars);
  }

  /** The `j`-th line of a file's entry: a key of the file and the entry for that key. */
  lemma FileEntryLine(m: Nest, f: string, j: nat)
    requires f in m && j < |FileEntryOf(m, f).lines|
    ensures FileEntryOf(m, f).lines[j].line in m[f]
    ensures FileEntryOf(m, f).lines[j] == LineEntryOf(m[f], FileEntryOf(m, f).lines[j].line)
  {
    var ls := SortedNats(m[f].Keys);
    SortedNatsFacts(m[f].Keys);
    LineEntryAt(m[f], ls, j);
  }

  /** The entries for distinct ascending files list exactly those files, in that order. */
  lemma EntriesOfFiles(m: Nest, fs: seq<string>)
    requires forall j :: 0 <= j < |fs| ==> fs[j] in m
    ensures forall i :: 0 <= i < |fs| ==> FileEntries(m, fs)[i].name == fs[i]
    ensures forall f :: (exists i :: 0 <= i < |fs| && FileEntries(m, fs)[i].name == f) <==> f in fs
  {
    forall i | 0 <= i < |fs| ensures FileEntries(m, fs)[i].name == fs[i] {
      FileEntryAt(m, fs, i);
    }
  }

  /** The files of a report come in ascending order, each once. */
  predicate FilesAscending(rep: seq<FileEntry>) {
    forall i, j :: 0 <= i < j < |rep| ==> LexLe(rep[i].name, rep[j].name) && rep[i].name != rep[j].name
  }

  /** A file is listed exactly when some abort names it. */
  ghost predicate FilesPresent(rep: seq<FileEntry>, ars: seq<AbortReason>) {
    forall f :: (exists i :: 0 <= i < |rep| && rep[i].name == f) <==> |ByFile(ars, f)| > 0
  }

  lemma ReportFilesOf(m: Nest, ars: seq<AbortReason>)
    requires FilesAgree(m, ars)
    ensures FilesAscending(Report(m))
    ensures FilesPresent(Report(m), ars)
  {
    var fs := SortedStrings(m.Keys);
    SortedStringsFacts(m.Keys);
    var rep := Report(m);
    assert rep == FileEntries(m, fs);
    EntriesOfFiles(m, fs);
    forall f ensures (exists i :: 0 <= i < |rep| && rep[i].name == f) <==> |ByFile(ars, f)| > 0 {
      assert f in m <==> |ByFile(ars, f)| > 0;
    }
  }

  /** The files of the report come in ascending order, each once, and a file
      is listed exactly when some abort names it. */
  lemma ReportFiles(ars: seq<AbortReason>)
    ensures FilesAscending(Report(NestOf(ars)))
    ensures FilesPresent(Report(NestOf(ars)), ars)
  {
    NestFiles(ars);
    ReportFilesOf(NestOf(ars), ars);
  }

  /** The `i`-th file of a report: a key and the entry for that key. */
  lemma ReportEntry(m: Nest, i: nat)
    requires i < |Report(m)|
    ensures Report(m)[i].name in m
    ensures Report(m)[i] == FileEntryOf(m, Report(m)[i].name)
  {
    var fs := SortedStrings(m.Keys);
    SortedStringsFacts(m.Keys);
    FileEntryAt(m, fs, i);
  }

  lemma ReportLinesOf(m: Nest, ars: seq<AbortReason>)
    requires LinesAgree(m, ars)
    ensures forall i :: 0 <= i < |Report(m)| ==> LinesAscending(Report(m)[i]) && LinesPresent(Report(m)[i], ars)
  {
    forall i | 0 <= i < |Report(m)| ensures LinesAscending(Report(m)[i]) && LinesPresent(Report(m)[i], ars) {
      ReportEntry(m, i);
      FileEntryFacts(m, ars, Report(m)[i].name);
    }
  }

  /** Every file of the report lists its lines in ascending order, and exactly
      the lines some abort of that file names. */
  lemma ReportLines(ars: seq<AbortReason>)
    ensures forall i :: 0 <= i < |Report(NestOf(ars))| ==>
      LinesAscending(Report(NestOf(ars))[i]) && LinesPresent(Report(NestOf(ars))[i], ars)
  {
    NestLines(ars);
    ReportLinesOf(NestOf(ars), ars);
  }

  /** Reasons of the `j`-th line of the `i`-th file are ascending, present and counted. */
  ghost predicate ReasonsReported(rep: seq<FileEntry>, ars: seq<AbortReason>, i: nat, j: nat)
    requires i < |rep| && j < |rep[i].lines|
  {
    && ReasonsAscending(rep[i].lines[j])
    && ReasonsPresent(rep[i].lines[j], rep[i].name, ars)
    && ReasonsCounted(rep[i].lines[j], rep[i].name, ars)
  }

  lemma ReportReasonsOf(m: Nest, ars: seq<AbortReason>)
    requires ReasonsAgree(m, ars) && CountsAgree(m, ars)
    ensures forall i, j :: 0 <= i < |Report(m)| && 0 <= j < |Report(m)[i].lines| ==>
      ReasonsReported(Report(m), ars, i, j)
  {
    forall i, j | 0 <= i < |Report(m)| && 0 <= j < |Report(m)[i].lines|
      ensures ReasonsReported(Report(m), ars, i, j)
    {
      ReportEntry(m, i);
      var f := Report(m)[i].name;
      FileEntryLine(m, f, j);
      LineEntryFacts(m, ars, f, Report(m)[i].lines[j].line);
    }
  }

  /** Every line of the report lists its reasons in ascending order, exactly
      the reasons some abort there names, each with the number of such aborts. */
  lemma ReportReasons(ars: seq<AbortReason>)
    ensures forall i, j :: 0 <= i < |Report(NestOf(ars))| && 0 <= j < |Report(NestOf(ars))[i].lines| ==>
      ReasonsReported(Report(NestOf(ars)), ars, i, j)
  {
    NestReasons(ars);
    ReportReasonsOf(NestOf(ars), ars);
  }

  // Every abort is counted once.

  function ReasonsSum(es: seq<(string, nat)>): nat {
    if es == [] then 0 else ReasonsSum(es[..|es| - 1]) + es[|es| - 1].1
  }

  function LinesSum(es: seq<LineEntry>): nat {
    if es == [] then 0 else LinesSum(es[..|es| - 1]) + ReasonsSum(es[|es| - 1].reasons)
  }

  /** The counts of a report, added up. */
  function FilesSum(es: seq<FileEntry>): nat {
    if es == [] then 0 else FilesSum(es[..|es| - 1]) + LinesSum(es[|es| - 1].lines)
  }

  lemma {:induction false} ReasonsSumSel(m: Nest, ars: seq<AbortReason>, f: string, l: nat, rs: seq<string>)
    requires CountsAgree(m, ars)
    requires f in m && l in m[f]
    requires forall j :: 0 <= j < |rs| ==> rs[j] in m[f][l]
    ensures ReasonsSum(ReasonEntries(m[f][l], rs)) == SumSel(rs, ByLine(ars, f, l), ReasonOf)
  {
    if rs != [] {
      var init, r := rs[..|rs| - 1], rs[|rs| - 1];
      ReasonsSumSel(m, ars, f, l, init);
      var es := ReasonEntries(m[f][l], rs);
      assert es[..|es| - 1] == ReasonEntries(m[f][l], init);
      assert es[|es| - 1].1 == |ByAll(ars, f, l, r)|;
    }
  }

  /** Every abort of a file and line has its reason among the line's keys. */
  lemma ReasonsCover(m: Nest, ars: seq<AbortReason>, f: string, l: nat)
    requires ReasonsAgree(m, ars)
    requires f in m && l in m[f]
    ensures forall i :: 0 <= i < |ByLine(ars, f, l)| ==> ByLine(ars, f, l)[i].reason in m[f][l]
  {
    var xs := ByLine(ars, f, l);
    forall i | 0 <= i < |xs| ensures xs[i].reason in m[f][l] {
      SelectMembers(xs, ReasonOf, xs[i].reason);
      assert xs[i] in ByAll(ars, f, l, xs[i].reason);
    }
  }

  lemma LineSum(m: Nest, ars: seq<AbortReason>, f: string, l: nat)
    requires ReasonsAgree(m, ars) && CountsAgree(m, ars)
    requires f in m && l in m[f]
    ensures ReasonsSum(LineEntryOf(m[f], l).reasons) == |ByLine(ars, f, l)|
  {
    var rs := SortedStrings(m[f][l].Keys);
    SortedStringsFacts(m[f][l].Keys);
    var xs := ByLine(ars, f, l);
    ReasonsSumSel(m, ars, f, l, rs);
    ReasonsCover(m, ars, f, l);
    SelectSum(rs, xs, ReasonOf);
  }

  lemma {:induction false} LinesSumSel(m: Nest, ars: seq<AbortReason>, f: string, ls: seq<nat>)
    requires ReasonsAgree(m, ars) && CountsAgree(m, ars)
    requires f in m
    requires forall j :: 0 <= j < |ls| ==> ls[j] in m[f]
    ensures LinesSum(LineEntries(m[f], ls)) == SumSel(ls, ByFile(ars, f), LineOf)
  {
    if ls != [] {
      var init, l := ls[..|ls| - 1], ls[|ls| - 1];
      LinesSumSel(m, ars, f, init);
      LineSum(m, ars, f, l);
      var es := LineEntries(m[f], ls);
      assert es[..|es| - 1] == LineEntries(m[f], init);
    }
  }

  /** Every abort of a file has its line among the file's keys. */
  lemma LinesCover(m: Nest, ars: seq<AbortReason>, f: string)
    requires LinesAgree(m, ars)
    requires f in m
    ensures forall i :: 0 <= i < |ByFile(ars, f)| ==> ByFile(ars, f)[i].line in m[f]
  {
    var xs := ByFile(ars, f);
    forall i | 0 <= i < |xs| ensures xs[i].line in m[f] {
      SelectMembers(xs, LineOf, xs[i].line);
      assert xs[i] in ByLine(ars, f, xs[i].line);
    }
  }

  lemma FileSum(m: Nest, ars: seq<AbortReason>, f: string)
    requires Describes(m, ars)
    requires f in m
    ensures LinesSum(FileEntryOf(m, f).lines) == |ByFile(ars, f)|
  {
    var ls := SortedNats(m[f].Keys);
    SortedNatsFacts(m[f].Keys);
    var xs := ByFile(ars, f);
    LinesSumSel(m, ars, f, ls);
    LinesCover(m, ars, f);
    SelectSum(ls, xs, LineOf);
  }

  lemma {:induction false} FilesSumSel(m: Nest, ars: seq<AbortReason>, fs: seq<string>)
    requires Describes(m, ars)
    requires forall j :: 0 <= j < |fs| ==> fs[j] in m
    ensures FilesSum(FileEntries(m, fs)) == SumSel(fs, ars, FileOf)
  {
    if fs != [] {
      var init, f := fs[..|fs| - 1], fs[|fs| - 1];
      FilesSumSel(m, ars, init);
      FileSum(m, ars, f);
      var es := FileEntries(m, fs);
      assert es[..|es| - 1] == FileEntries(m, init);
    }
  }

  lemma ReportTotalOf(m: Nest, ars: seq<AbortReason>)
    requires Describes(m, ars)
    ensures FilesSum(Report(m)) == |ars|
  {
    var fs := SortedStrings(m.Keys);
    SortedStringsFacts(m.Keys);
    FilesSumSel(m, ars, fs);
    forall i | 0 <= i < |ars| ensures FileOf(ars[i]) in fs {
      SelectMembers(ars, FileOf, ars[i].file);
      assert ars[i] in ByFile(ars, ars[i].file);
    }
    SelectSum(fs, ars, FileOf);
  }

  /** The counts of the report add up to the number of aborts. */
  lemma ReportTotal(ars: seq<AbortReason>)
    ensures FilesSum(Report(NestOf(ars))) == |ars|
  {
    NestDescribes(ars);
    ReportTotalOf(NestOf(ars), ars);
  }

  /** `render(fname, abort_reasons)`: only the text format is known. */
  method Render(fmt: string, ars: seq<AbortReason>, out: TextOut) returns (r: Outcome<string>)
    modifies out
    ensures fmt == "txt" ==> r == Pass && out.writes == old(out.writes) + ReportText(Report(NestOf(ars)))
    ensures fmt != "txt" ==> r == Fail("Unknown format") && out.writes == old(out.writes)
  {
    if fmt == "txt" {
      var files := CountNested(ars);
      WriteReport(out, files);
      r := Pass;
    } else {
      r := Fail("Unknown format");
    }
  }
}
