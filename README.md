# dumpanalyze, modelled in Dafny

dumpanalyze reads the plain-text dump that LuaJIT's JIT compiler writes
(`-jdump`-style output). The dump is cut into headers of the form
`---- TRACE <id> <state> ...` and the data lines that follow them. For each
compiled trace it collects:

- the parent reference;
- the start file and line;
- the bytecode, IR and machine code;
- the side exits the machine code jumps to;
- the link type of its `stop` header.

It also collects the trace aborts, grouped by generation: `parse` returns
after every `flush` header. The traces are then grouped into bushes, one per
root trace with the side traces grown from it, and reports are written from
them:

- a bush as a Graphviz control-flow graph, or as text in the dump's own
  format;
- the abort reasons as a CSV of counts, most frequent first;
- a text report per file, line and reason.

This project models that core and proves properties of it.

- `trace.dfy` (module `Traces`) holds the trace.
  - The per-state handlers are pure steps on a value: `HeaderStep` and
    `DataStep`.
  - The class `Trace` carries the Python object's fields. Its methods are
    proved to perform exactly those steps in place.
- `patterns.dfy` (modules `Patterns` and `PatternFacts`) recognises the five
  patterns the code uses:
  - the header pattern, anchored at the start;
  - the `start`, `mcode` and `stop` header patterns, searched anywhere, with
    `$` also allowed before a final newline;
  - the `->N` side-exit pattern.
- `dumpparser.dfy` (module `DumpParsing`) holds the parser.
  - A pure state machine: `ParsedLine`, `Step`, `Run` and `Parse`.
  - The class `DumpParser`, whose methods are proved against that machine.
  - The parser appends the current trace object to its list by reference.
    The value model keeps this as frozen traces followed by `stops` copies of
    the current trace, so a `stop` header seen twice yields the same trace
    twice.
- `tracebush.dfy` (module `TraceBushes`) and `traceforest.dfy` (module
  `TraceForests`) hold the bush class and the grouping loop. The loop itself
  is a pure fold, and it is also run on bush objects.
- The three views are modelled as follows.
  - `view_tracebush.dfy`: the graph is the sequence of node and edge
    statements handed to the digraph, and the text is the sequence of writes.
  - `view_abortreasonslist.dfy`: the CSV is the sequence of rows handed to
    the writer.
  - `view_abortreasonsdetails.dfy`: the report is the sequence of writes.
- `roundtrip.dfy` proves that parsing the text view of a bush gives back its
  traces.
- `scenarios.dfy` restates the repository's expectations about its sample
  dump on the records that dump yields.

In these cases the model follows the code:

- A `flush` header calls the current trace's header handler, as every
  non-abort header does. So a `flush` with no current trace fails with
  `NoTrace`, and a `flush` header is not free of trace data.
- A header whose state names no handler (`exit` has handlers, but a state
  such as `foo` does not) fails with `NoHandler`, where the Python code
  raises `AttributeError`.
- A parent id that no earlier trace has fails the grouping, where the Python
  code raises `KeyError`.

The failures of the Python code are values of `Traces.Failure`:

- `sys.exit` on an id mismatch becomes `IdMismatch`;
- the `AttributeError` raised on a `None` trace becomes `NoTrace`;
- the one raised by `getattr` becomes `NoHandler`;
- `None.group` on a pattern that does not match becomes `NoMatch`.

## Model

| member | source | states |
|---|---|---|
| Traces.StateOf | dumpanalyze/dumpparser.py:37-44 | The state a header token names prints back as that token, and it is a state without handlers exactly when the token is none of the eight known names |
| Traces.StateOfName | dumpanalyze/dumpparser.py:37-44 | Every state is read back from its own name |
| Traces.ExitMessage | dumpanalyze/dumpparser.py:109-112 | The exit message opens with the line number and the state, gives the expected id right after "Expected trace ID ", then ", got ", and ends with the id found |
| Traces.ExitMessageIds | dumpanalyze/dumpparser.py:109-112 | Both ids read back from the exit message, the expected one first |
| Traces.ExitText | dumpanalyze/dumpparser.py:108-112 | A failure ends the program with a `sys.exit` message exactly when it is an id mismatch, and that message opens with the mismatch's line and state and reports its two ids |
| Traces.Trace.constructor | dumpanalyze/trace.py:40-54 | A new trace has the given id, no parent, empty dumps, zero counters and no side exits |
| Traces.Trace.NumBc | dumpanalyze/trace.py:93-94 | The bytecode count is the number of bytecode lines stored |
| Traces.Trace.ProcessHeader | dumpanalyze/trace.py:122-124 | The header handler for the state runs on the object: success leaves the fields the pure header step gives, and failure changes nothing |
| Traces.Trace.HeaderStart | dumpanalyze/trace.py:135-148 | On a match the parent fields are set only when the parent group matched, and the file and line always are; with no match it fails and changes nothing |
| Traces.Trace.SetParent | dumpanalyze/trace.py:138-145 | Only the three parent fields change, to the parent text and its two numbers |
| Traces.Trace.HeaderMcode | dumpanalyze/trace.py:153-155 | The machine-code size becomes the number that ends the header; with no match it fails and changes nothing |
| Traces.Trace.HeaderStop | dumpanalyze/trace.py:157-159 | The link type becomes the text after the arrow; with no match it fails and changes nothing |
| Traces.Trace.ProcessData | dumpanalyze/trace.py:127-129 | The data handler for the state runs on the object: success leaves the fields the pure data step gives, and failure changes nothing |
| Traces.Trace.DataStart | dumpanalyze/trace.py:174-175 | A bytecode line is appended and nothing else changes |
| Traces.Trace.DataIR | dumpanalyze/trace.py:177-182 | An IR line is appended; it counts as a snapshot when it contains SNAP and as an instruction otherwise |
| Traces.Trace.DataMcode | dumpanalyze/trace.py:184-192 | A machine-code line is appended, and the side exit it jumps to, if any, is counted once more |
| Traces.HeaderStepFails | dumpanalyze/trace.py:122-168 | A header step fails exactly for a state with no handler or a start/mcode/stop header whose pattern does not match |
| Traces.HeaderStepFields | dumpanalyze/trace.py:150-168 | A header step never touches the dumps or counters, and only start, mcode and stop change anything |
| Traces.HeaderStepValues | dumpanalyze/trace.py:33-35 | A stored file is non-empty and free of colons, a link type is non-empty and free of newlines, and the mcode size is what the pattern read |
| Traces.DataStepFacts | dumpanalyze/trace.py:174-204 | A data step fails exactly when the state has no handler; otherwise it appends the line to the state's dump, splits IR lines by SNAP, and leaves the header fields alone |
| Traces.ExitCountsMeaning | dumpanalyze/trace.py:184-192 | A side exit is a key exactly when some machine-code line jumps to it, and its count is the number of such lines |
| Traces.ArrowCountPositive | dumpanalyze/trace.py:186-192 | A side exit is counted exactly when, on some machine-code line, the leftmost "->" followed by digits names it (as `re.search` finds `->(\d+)`; on "->x ->5" that is 5) |
| Traces.NewTraceConsistent | dumpanalyze/trace.py:40-54 | A new trace's counters agree with its (empty) dumps, and it is a root |
| Traces.DataStepConsistent | dumpanalyze/trace.py:174-192 | Every data step keeps the IR, snapshot and side-exit counters in agreement with the dumped lines |
| Traces.HeaderStepConsistent | dumpanalyze/trace.py:135-168 | Header steps keep the counters in agreement with the dumps |
| Traces.NumIrSnSplit | dumpanalyze/trace.py:177-182 | The instruction count is the IR lines minus the snapshots, and there are no more snapshots than IR lines |
| Patterns.MatchHeader | dumpanalyze/dumpparser.py:56 | A line is a header exactly when it opens with the trace prefix followed by a non-space; the state token is then a non-empty run of non-spaces |
| PatternFacts.MatchHeaderWithId | dumpanalyze/dumpparser.py:56 | A header with an id followed by a space yields that id and the state token |
| PatternFacts.MatchHeaderWithoutId | dumpanalyze/dumpparser.py:56 | A header whose token does not start with a digit has id 0 |
| PatternFacts.SearchStartRoot | dumpanalyze/trace.py:33 | A start header with no parent reference yields no parent, the file and the line |
| PatternFacts.SearchStartSide | dumpanalyze/trace.py:33 | A start header with a parent reference yields that reference's text and numbers, the file and the line |
| PatternFacts.SearchMcodeRendered | dumpanalyze/trace.py:34 | An mcode header yields the size it ends with |
| PatternFacts.SearchStopRendered | dumpanalyze/trace.py:35 | A stop header yields the whole link type after the arrow |
| DumpParsing.StatusCode | dumpanalyze/dumpparser.py:47-48 | A parsed generation is 1 and the end of the dump is 2 |
| DumpParsing.TracesOf | dumpanalyze/dumpparser.py:123-124 | The trace list is the frozen traces plus one entry per stop header of the current trace |
| DumpParsing.TracesOfFacts | dumpanalyze/dumpparser.py:118-124 | The list opens with the frozen traces, and every later entry is the current trace itself |
| DumpParsing.RunStep | dumpanalyze/dumpparser.py:79-83 | Each loop turn counts and parses one line, returning a generation right after a flush header and going on otherwise |
| DumpParsing.ParsedHeaderFacts | dumpanalyze/dumpparser.py:105-124 | A header sets the state; an id mismatch on an assertable state exits with the expected and found ids; an abort only records its reason; a start freezes the list and opens a trace with the header's id; a stop appends the current trace once |
| DumpParsing.ParsedLineFacts | dumpanalyze/dumpparser.py:94-103 | A blank line changes nothing, a data line needs a current trace and goes to its data handler, and no line drops traces or abort reasons already collected |
| DumpParsing.RunStops | dumpanalyze/dumpparser.py:76-85 | parse stops after a flush header with a generation or at the end of the dump, having counted one line per line read |
| DumpParsing.StepKeeps | dumpanalyze/dumpparser.py:79-81 | One loop turn counts one line and keeps the frozen traces, the abort reasons and the well-formedness of the fields |
| DumpParsing.RunKeeps | dumpanalyze/dumpparser.py:79-85 | The rest of the loop keeps the frozen traces and the abort reasons, and appends no trace without a current one |
| DumpParsing.HeaderCount | dumpanalyze/dumpparser.py:118-124 | A header appends one trace if it is a stop header and none otherwise |
| DumpParsing.DataCount | dumpanalyze/dumpparser.py:94-103 | A blank or data line appends no trace |
| DumpParsing.HeaderLineCount | dumpanalyze/dumpparser.py:98-101 | A header line appends a trace exactly when it is a stop header |
| DumpParsing.LineCount | dumpanalyze/dumpparser.py:94-103 | Any line appends a trace exactly when it is a stop header |
| DumpParsing.StepCount | dumpanalyze/dumpparser.py:79-81 | One loop turn appends a trace exactly when its line is a stop header |
| DumpParsing.RunCount | dumpanalyze/dumpparser.py:79-85 | The traces appended are exactly one per stop header among the lines read |
| DumpParsing.ParseCount | dumpanalyze/dumpparser.py:76-85 | parse returns as many traces as it read stop headers |
| DumpParsing.Snaps | dumpanalyze/dumpparser.py:68-70 | The trace property, as values: one snapshot per object in the list |
| DumpParsing.DumpParser.constructor | dumpanalyze/dumpparser.py:58-63 | A new parser stands at the start of the dump in the initial state |
| DumpParsing.DumpParser.InitParser | dumpanalyze/dumpparser.py:87-92 | Line 0, the initial state, no trace, and empty trace and abort lists, with the file position kept |
| DumpParsing.DumpParser.NewCurrent | dumpanalyze/dumpparser.py:118-119 | A fresh trace with the header's id becomes current, and the list collected so far is frozen |
| DumpParsing.DumpParser.AllFrozen | dumpanalyze/dumpparser.py:118-119 | With every entry frozen, the parser's state is that list's snapshots and the current trace |
| DumpParsing.DumpParser.CheckId | dumpanalyze/dumpparser.py:108-112 | The id assertion fails exactly when the state is assertable and the header's id differs from the current trace's |
| DumpParsing.DumpParser.HeaderOnCurrent | dumpanalyze/dumpparser.py:121-124 | The current trace handles the header, and a stop header appends it |
| DumpParsing.DumpParser.AppendCurrent | dumpanalyze/dumpparser.py:123-124 | The current trace object is appended once more and nothing else changes |
| DumpParsing.DumpParser.ParseHeaderLine | dumpanalyze/dumpparser.py:105-124 | The header line does to the object what the pure header parse does to its value |
| DumpParsing.DumpParser.DispatchHeader | dumpanalyze/dumpparser.py:114-124 | An abort records its reason, a start opens a fresh trace, and any other header goes to the current trace |
| DumpParsing.DumpParser.SetState | dumpanalyze/dumpparser.py:106 | Only the state changes |
| DumpParsing.DumpParser.AddAbortReason | dumpanalyze/dumpparser.py:114-116 | Only the abort list grows, by the reason the line decodes to |
| DumpParsing.DumpParser.ParseLine | dumpanalyze/dumpparser.py:94-103 | The line does to the object what the pure line parse does to its value |
| DumpParsing.DumpParser.Advance | dumpanalyze/dumpparser.py:79-83 | One loop turn on the object matches one step of the pure loop, including its failure and its return after flush |
| DumpParsing.DumpParser.CountLine | dumpanalyze/dumpparser.py:80 | Only the line number grows, by one |
| DumpParsing.DumpParser.Parse | dumpanalyze/dumpparser.py:76-85 | parse returns the status the pure loop gives from the file position, and leaves the traces, abort reasons and position it gives |
| TraceBushes.TraceBush.constructor | dumpanalyze/tracebush.py:30-32 | A bush made from a trace is keyed by that trace's id and holds only it |
| TraceBushes.TraceBush.Size | dumpanalyze/tracebush.py:38-40 | The size is the number of traces held, at least 1 |
| TraceBushes.TraceBush.Append | dumpanalyze/tracebush.py:46-47 | The trace goes last and the root stays first |
| TraceForests.Grow | dumpanalyze/traceforest.py:37-44 | One loop turn keeps every bush opening with its root and every trace id naming an existing bush |
| TraceForests.GroupFrom | dumpanalyze/traceforest.py:36-44 | The loop keeps the same invariant over all the traces |
| TraceForests.GroupFromOk | dumpanalyze/traceforest.py:41-43 | Grouping fails exactly when a side trace names a parent not seen before it, and the error is that parent's id |
| TraceForests.GroupFromWithin | dumpanalyze/traceforest.py:36-44 | The bushes hold only traces that were grouped |
| TraceForests.GroupFromPlaces | dumpanalyze/traceforest.py:36-44 | With distinct ids, every trace sits in the bush that `roots` names for it (which `BushesFollowParents` ties to the parent ids) |
| TraceForests.BushesPlace | dumpanalyze/traceforest.py:32-46 | With distinct ids, every trace of the dump is in the bush `roots` names for it, and every bush is keyed by its first trace, a root |
| TraceForests.GrowFollows | dumpanalyze/traceforest.py:35-43 | One turn sends a root to its own id and a side trace to its parent's entry in `roots`, and keeps what `roots` says of earlier traces |
| TraceForests.GroupFromFollows | dumpanalyze/traceforest.py:34-43 | The whole loop keeps that: each trace maps to its own id if a root, to its parent's entry otherwise |
| TraceForests.BushesFollowParents | dumpanalyze/traceforest.py:35-43 | With distinct ids, `roots[trace.id]` is the trace's id for a root and `roots[trace.parent_id]` for a side trace |
| TraceForests.RootsReachRoot | dumpanalyze/traceforest.py:39-43 | Following parent ids back from any trace reaches a root, and `roots` sends the trace to that root's id |
| TraceForests.BushOfChainRoot | dumpanalyze/traceforest.py:32-46 | With distinct ids, a trace is in bush `k` exactly when following its parent ids leads to the root with id `k`, so side traces at any depth share their root's bush |
| TraceForests.BushesPartition | dumpanalyze/traceforest.py:32-46 | With distinct ids, each bush holds exactly the traces `roots` assigns to it, in input order |
| TraceForests.BushesExactlyOnce | dumpanalyze/traceforest.py:32-46 | With distinct ids, each trace is in exactly one bush |
| TraceForests.BushKeys | dumpanalyze/traceforest.py:48-50 | Every bush key, each once. The ascending order is the model's own and is used only to sum bush sizes; the `bushes` dict iterates in root insertion order |
| TraceForests.BushSizes | dumpanalyze/tracebush.py:38-40 | With distinct ids, the bush sizes add up to the number of traces |
| TraceForests.TraceForest.Build | dumpanalyze/traceforest.py:32-46 | Building the forest of objects gives fresh bushes holding what the pure grouping gives, each keyed by its root, or the same error |
| TraceForests.Place | dumpanalyze/traceforest.py:37-44 | One loop turn on the bush objects mirrors one step of the pure grouping |
| TraceForests.Plant | dumpanalyze/traceforest.py:38-40 | A root trace gets a fresh bush and the other keys keep theirs |
| TraceForests.AppendTo | dumpanalyze/traceforest.py:41-43 | A side trace is appended to its root's bush only |
| TraceForests.MirrorsContents | dumpanalyze/traceforest.py:48-50 | The bush objects' contents are the traces the pure grouping lists |
| ViewTraceBush.Digraph.constructor | dumpanalyze/view/tracebush.py:51 | A new graph has no statements |
| ViewTraceBush.Digraph.AddNode | dumpanalyze/view/tracebush.py:157-160 | A node statement is appended with its attributes |
| ViewTraceBush.Digraph.AddEdge | dumpanalyze/view/tracebush.py:163-171 | An edge statement is appended with its attributes |
| ViewTraceBush.AddBoundaryNode | dumpanalyze/view/tracebush.py:157-160 | A bold box, coloured when the trace is a root |
| ViewTraceBush.AddImplicitEdge | dumpanalyze/view/tracebush.py:163-171 | An implicit flow edge, coloured when the trace is a root |
| ViewTraceBush.AddExit | dumpanalyze/view/tracebush.py:142-152 | One loop turn: the edge to the side exit's node, and for a root its coloured node; the side exit's node comes next |
| ViewTraceBush.AddChain | dumpanalyze/view/tracebush.py:137-154 | The loop emits the chain of side-exit nodes in the given order and returns its last node |
| ViewTraceBush.ChainSnoc | dumpanalyze/view/tracebush.py:141-152 | One more side exit extends the chain by one turn from the previous last node |
| ViewTraceBush.AddTraceBody | dumpanalyze/view/tracebush.py:137-154 | The side exits are chained in ascending order and the last node is returned |
| ViewTraceBush.AddToGraph | dumpanalyze/view/tracebush.py:80-134 | One trace's statements: the entry node, the parent edge, the chain, the end node, the flow edge and the back edge, in that order |
| ViewTraceBush.AddParentEdge | dumpanalyze/view/tracebush.py:90-92 | A side trace gets a bold edge from its parent's side exit; a root gets none |
| ViewTraceBush.AddBackEdge | dumpanalyze/view/tracebush.py:123-134 | A loop gets a bold edge back to its own entry, a link to the bush's root gets one to the root's entry, and others get none |
| ViewTraceBush.GraphOf | dumpanalyze/view/tracebush.py:50-54 | The graph holds the statements of each trace of the bush, in bush order |
| ViewTraceBush.BushGraphSnoc | dumpanalyze/view/tracebush.py:52-53 | One more trace appends its own statements |
| ViewTraceBush.BoldEdgesOfTrace | dumpanalyze/view/tracebush.py:90-134 | A trace's only bold edges are the parent edge of a side trace and the back edge of a loop or a link to the root |
| ViewTraceBush.FlowPathOfTrace | dumpanalyze/view/tracebush.py:94-121 | The flow edges form one path from the entry through each side exit in ascending order, each once, to the end node |
| ViewTraceBush.MarkedOfTrace | dumpanalyze/view/tracebush.py:80-171 | A side trace's graph has no coloured statement, and a root's has exactly 3 + 2n, n being its number of side exits (the count, not which statements) |
| ViewTraceBush.EntryOfTrace | dumpanalyze/view/tracebush.py:87-88 | The first statement is the bold entry box "START id", and the second colours it exactly for a root |
| ViewTraceBush.EndLabelCases | dumpanalyze/view/tracebush.py:100-118 | A numeric link reads "goto N", loop, return and interpreter get their own words, and anything else is shown as is |
| ViewTraceBush.KeepGraph | dumpanalyze/view/tracebush.py:80-134 | Picking statements out of a trace's graph picks them from each part in turn |
| ViewTraceBush.PrintTrace | dumpanalyze/view/tracebush.py:56-77 | The writes of one trace: the start header with its parent, the bytecode, the IR header and lines, the mcode header and lines, the stop header and a blank line |
| ViewTraceBush.PrintedText | dumpanalyze/view/tracebush.py:56-77 | The text written for a trace is its lines in the dump's format, one after another |
| ViewTraceBush.BushText | dumpanalyze/view/tracebush.py:45-48 | The text written for a bush is the lines of its traces in order |
| ViewTraceBush.TextOf | dumpanalyze/view/tracebush.py:45-48 | The text view of a bush is the lines of its traces |
| ViewTraceBush.Render | dumpanalyze/view/tracebush.py:37-43 | "txt" gives the text, "png" the graph, and any other format is "Unknown format" |
| RoundTrip.RenderReparse | dumpanalyze/view/tracebush.py:56-77 | The text view of a bush holds no carriage return and splits back into the lines written; parsing it reads the whole text as a dump and gives back the same traces with every field equal, and no abort reasons |
| RoundTrip.BushFeed | dumpanalyze/dumpparser.py:94-124 | The parser goes through the lines of a bush, appending each trace once at its stop header |
| RoundTrip.FeedAppend | dumpanalyze/dumpparser.py:79-83 | Feeding two blocks one after the other is feeding their concatenation |
| RoundTrip.RunFeed | dumpanalyze/dumpparser.py:79-85 | The loop goes through a fed block and carries on after it |
| ViewAbortReasonsList.CsvOut.WriteRow | dumpanalyze/view/abortreasonslist.py:56-58 | Appends the row written |
| ViewAbortReasonsList.CountReasons | dumpanalyze/view/abortreasonslist.py:45-48 | The counting dictionary has the reasons in the order first seen, each with the number of records giving it |
| ViewAbortReasonsList.Items | dumpanalyze/view/abortreasonslist.py:50-52 | The items are the keys in key order, each with its count |
| ViewAbortReasonsList.ItemsFor | dumpanalyze/view/abortreasonslist.py:45-52 | Each reason comes with the number of records giving it |
| ViewAbortReasonsList.RenderCsv | dumpanalyze/view/abortreasonslist.py:44-58 | The CSV is the header row, then one row per reason sorted by count |
| ViewAbortReasonsList.Render | dumpanalyze/view/abortreasonslist.py:38-42 | "csv" writes the rows, and any other format is "Unknown format" |
| ViewAbortReasonsList.TallyFacts | dumpanalyze/view/abortreasonslist.py:45-48 | Each reason is counted once, exactly when a record gives it, with the number of those records, and the counts add up to the number of records |
| ViewAbortReasonsList.RowsCount | dumpanalyze/view/abortreasonslist.py:45-52 | Every reason a record gives has exactly one row, no other reason has one, and each row's count is that reason's number of records |
| ViewAbortReasonsList.RowsTotal | dumpanalyze/view/abortreasonslist.py:45-52 | The row counts add up to the number of records |
| ViewAbortReasonsList.RowsOrder | dumpanalyze/view/abortreasonslist.py:50-52 | No row has a higher count than one before it, and equal counts keep the order in which the reasons were first seen (a stable sort) |
| ViewAbortReasonsList.StableSortReasons | dumpanalyze/view/abortreasonslist.py:50-52 | Sorting keeps the reasons the same and distinct |
| ViewAbortReasonsList.CsvLayout | dumpanalyze/view/abortreasonslist.py:33 | The first row is REASON, COUNT, and row k+1 is the k-th item |
| Sorting.StableSortSorted | dumpanalyze/view/abortreasonslist.py:50-52 | The sort orders by the key and is a permutation |
| Sorting.StableSortStable | dumpanalyze/view/abortreasonslist.py:50-52 | Items the key ties keep their relative order |
| Sorting.SortSetFacts | dumpanalyze/view/abortreasonsdetails.py:54-61 | The sorted keys are the set's members, in order, each once |
| ViewAbortReasonsDetails.CountNested | dumpanalyze/view/abortreasonsdetails.py:42-51 | The counting loop gives the nested dictionaries after counting each abort in turn |
| ViewAbortReasonsDetails.NestDescribes | dumpanalyze/view/abortreasonsdetails.py:50-51 | The files, lines and reasons present are exactly those some abort names, and each count is the number of aborts with that file, line and reason |
| ViewAbortReasonsDetails.WriteReport | dumpanalyze/view/abortreasonsdetails.py:53-64 | The writes are the report's text: files, lines and reasons in sorted order |
| ViewAbortReasonsDetails.WriteFile | dumpanalyze/view/abortreasonsdetails.py:56-64 | A file's heading, then its lines in ascending order |
| ViewAbortReasonsDetails.WriteLine | dumpanalyze/view/abortreasonsdetails.py:59-64 | A line's heading, then its reasons in ascending order with their counts |
| ViewAbortReasonsDetails.WriteReasons | dumpanalyze/view/abortreasonsdetails.py:61-64 | One reason line per reason, with its count |
| ViewAbortReasonsDetails.ReportFiles | dumpanalyze/view/abortreasonsdetails.py:54-56 | Files are listed in ascending order, each once, exactly when some abort names them |
| ViewAbortReasonsDetails.ReportLines | dumpanalyze/view/abortreasonsdetails.py:57-59 | Within a file, lines are ascending, each once, listed exactly when some abort names that file and line |
| ViewAbortReasonsDetails.ReportReasons | dumpanalyze/view/abortreasonsdetails.py:60-64 | Within a line, reasons are ascending and distinct, listed exactly when some abort names them, each with the number of such aborts |
| ViewAbortReasonsDetails.ReportTotal | dumpanalyze/view/abortreasonsdetails.py:50-64 | The counts of the report add up to the number of aborts |
| ViewAbortReasonsDetails.Render | dumpanalyze/view/abortreasonsdetails.py:35-39 | "txt" writes the report, and any other format writes nothing and is "Unknown format" |
| Scenarios.FourRows | tests/test_cli.py:60-63 | Four aborts with the same reason give the single CSV row with count 4 |
| Scenarios.FourReport | tests/test_cli.py:66-69 | The same aborts give the file, line 1 and the reason with count 4 |
| Scenarios.SampleBushes | tests/test_objects.py:86-99 | The sample's three traces form one bush keyed 1 and holding all three |

## Left out

- File I/O is not modelled. The dump is a sequence of lines, the parser's file position is a field, and output files are sequences of writes (text) or rows (CSV). Non-UTF-8 bytes being ignored, and the closing of files, are not captured. Newline translation on reading is described in the `RoundTrip.RenderReparse / Text.Lines` line below.
- AbortReason parsing is not modelled. An abort line's decoding is a function the parser is given, and an abort reason is an opaque file, line and reason triple.
- Graphviz rendering (`graph.render` and the image file) is not modelled. The graph is the sequence of node and edge statements with their attributes.
- The general regular-expression engine is not modelled. Only the five patterns the code uses are written out as recognisers.
- Patterns.MatchHeader: `\d`, `\s` and `\S` are read as ASCII, in this pattern and in the `start`, `mcode` and `stop` patterns, and the model reads `isnumeric` and `int` as taking ASCII digits only. Python's `isnumeric` also accepts characters such as "½", on which `int` raises. So for a link type "½", `_add_to_graph` labels the end node "goto ½" and then raises a ValueError at `int(link_type)`, where the model shows the link type as is and draws no back edge. Python's `str` patterns also take the other Unicode digits and spaces. So on a line with a non-ASCII digit or space the model can differ: for "---- TRACE \u0661 stop -> x", Python reads id 1 and state `stop`, and the model reads id 0 with the token "\u0661". The same holds for `\d+` in the `start`, `mcode` and `->N` patterns, and for U+0085 or U+00A0 under `\S`.
- CSV quoting and serialisation are not modelled. The CSV is the list of rows handed to the writer.
- `__main__.py` (the command line), `setup.py` and the traces CSV view (`view/traces.py`) are not part of this model.
- Bushes and the forest hold trace values, not the trace objects themselves: the traces are not changed after parsing. The parser keeps the object aliasing, as described above.
- The Python `defaultdict` of side exits is a map holding only keys that have been counted. Only those keys can be observed through the views.
- RoundTrip.RenderReparse: the round trip is proved under a sufficient condition, `Renderable`. It asks for a file with no colon, "\n" or '\r', a non-empty link type with no "\n" or '\r', a parent label written exactly as the parent fields print (`str(parent_id) + "/" + str(parent_side)`), data lines that are neither blank nor headers and hold no '\r', and counters that agree with their dumps. The condition is not the whole class of traces the parser produces. The parser stores the parent label as written: a start header ending in " start 01/2 f:1" gives parent "01/2" with parent id 1. Such a trace would also round-trip, but `Renderable` excludes it, so the model does not state its round trip.
- RoundTrip.RenderReparse / Text.Lines: the model splits a text after each "\n" only and does not model universal-newline translation. In the mode `open(dump, "r")` uses, '\r' and "\r\n" also end a line and both are read as "\n". The two readings agree on a text with no '\r'. `RenderReparse` proves the text view is such a text for renderable traces, and `Renderable` excludes '\r' from every field and line. A dump holding '\r' is parsed by the model on the lines it is given, not on the lines Python would read.
- TraceForests.BushesPlace: the partition and placement lemmas assume distinct trace ids within one generation. With repeated ids the Python dictionaries overwrite entries, and the model states only the bush invariant for that case (TraceForests.GroupFrom).
