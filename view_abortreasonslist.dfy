/** The aggregated abort view (view/abortreasonslist.py): one CSV row per
    distinct abort reason with the number of records giving it, the most
    frequent first. */
module ViewAbortReasonsList {
  import opened Outcomes
  import opened Sorting
  import opened Counting
  import opened AbortReasons

  const CsvHeader := ["REASON", "COUNT"]

  /** A row the CSV writer receives: the header, or a reason and its count. */
  datatype CsvRow = HeaderRow(names: seq<string>) | DataRow(reason: string, count: nat)

  /** The CSV file: the rows written, in order. */
  class CsvOut {
    var rows: seq<CsvRow>

    constructor()
      ensures rows == []
    {
      rows := [];
    }

    /** `writer.writerow(row)`. */
    method WriteRow(row: CsvRow)
      modifies this
      ensures rows == old(rows) + [row]
    {
      rows := rows + [row];
    }
  }

  /** The number of records that give reason `r`. */
  function Occurrences(ars: seq<AbortReason>, r: string): nat { |Select(ars, ReasonOf, r)| }

  /** `(reason, count)` for each of the reasons `ks`. */
  function ItemsFor(ks: seq<string>, ars: seq<AbortReason>): (r: seq<(string, nat)>)
    ensures |r| == |ks|
    ensures forall i :: 0 <= i < |ks| ==> r[i] == (ks[i], Occurrences(ars, ks[i]))
  {
    if ks == [] then [] else ItemsFor(ks[..|ks| - 1], ars) + [(ks[|ks| - 1], Occurrences(ars, ks[|ks| - 1]))]
  }

  /** `reasons_map.items()` after the counting loop: each reason once, in the
      order the records first give it, with its count. */
  function Tally(ars: seq<AbortReason>): seq<(string, nat)> {
    ItemsFor(FirstSeen(ars, ReasonOf), ars)
  }

  /** `key=lambda x: x[1], reverse=True`: higher counts first. */
  function ByCountDesc(a: (string, nat), b: (string, nat)): bool { a.1 >= b.1 }

  lemma ByCountDescPreorder()
    ensures TotalPreorder(ByCountDesc)
  {
  }

  /** `sorted(reasons_map.items(), key=lambda x: x[1], reverse=True)`. */
  function Rows(ars: seq<AbortReason>): seq<(string, nat)> {
    StableSort(Tally(ars), ByCountDesc)
  }

  /** The counting loop over the records, into a dictionary with default 0:
      `order` is the dictionary's key order, `counts` its contents. */
  method CountReasons(ars: seq<AbortReason>) returns (order: seq<string>, counts: map<string, nat>)
    ensures order == FirstSeen(ars, ReasonOf)
    ensures forall r :: r in counts <==> r in order
    ensures forall r :: r in counts ==> counts[r] == Occurrences(ars, r)
  {
    order, counts := [], map[];
    for i := 0 to |ars|
      invariant order == FirstSeen(ars[..i], ReasonOf)
      invariant forall r :: r in counts <==> r in order
      invariant forall r :: r in counts ==> counts[r] == Occurrences(ars[..i], r)
    {
      var r := ars[i].reason;
      if r !in counts {
        counts := counts[r := 0];
        order := order + [r];
      }
      counts := counts[r := counts[r] + 1];
      FirstSeenFacts(ars[..i], ReasonOf);
      assert ars[..i + 1] == ars[..i] + [ars[i]];
      forall k ensures Select(ars[..i + 1], ReasonOf, k)
                       == Select(ars[..i], ReasonOf, k) + (if ReasonOf(ars[i]) == k then [ars[i]] else []) {
        SelectSnoc(ars[..i], ars[i], ReasonOf, k);
      }
    }
    assert ars[..|ars|] == ars;
  }

  /** `dict.items()`: each key in key order, with its value. */
  function Items(order: seq<string>, counts: map<string, nat>): (r: seq<(string, nat)>)
    requires forall k :: k in order ==> k in counts
    ensures |r| == |order|
    ensures forall i :: 0 <= i < |order| ==> r[i] == (order[i], counts[order[i]])
  {
    if order == [] then [] else Items(order[..|order| - 1], counts) + [(order[|order| - 1], counts[order[|order| - 1]])]
  }

  /** The data rows for the sorted items, in order. */
  function DataRows(items: seq<(string, nat)>): (r: seq<CsvRow>)
    ensures |r| == |items|
  {
    if items == [] then [] else DataRows(items[..|items| - 1]) + [DataRow(items[|items| - 1].0, items[|items| - 1].1)]
  }

  /** One more item gives one more row, at the end. */
  lemma DataRowsSnoc(items: seq<(string, nat)>, i: nat)
    requires i < |items|
    ensures DataRows(items[..i + 1]) == DataRows(items[..i]) + [DataRow(items[i].0, items[i].1)]
  {
    assert items[..i + 1][..i] == items[..i];
  }

  /** `_render_csv` up to closing the file: the header, then one row per reason. */
  method RenderCsv(ars: seq<AbortReason>) returns (rows: seq<CsvRow>)
    ensures rows == [HeaderRow(CsvHeader)] + DataRows(Rows(ars))
  {
    var order, counts := CountReasons(ars);
    var items := Items(order, counts);
    assert items == Tally(ars);
    var sorted := StableSort(items, ByCountDesc);
    var out := new CsvOut();
    out.WriteRow(HeaderRow(CsvHeader));
    for i := 0 to |sorted|
      invariant out.rows == [HeaderRow(CsvHeader)] + DataRows(sorted[..i])
    {
      out.WriteRow(DataRow(sorted[i].0, sorted[i].1));
      DataRowsSnoc(sorted, i);
    }
    assert sorted[..|sorted|] == sorted;
    rows := out.rows;
  }

  /** `render`: only "csv" is known; any other format raises. */
  method Render(fmt: string, ars: seq<AbortReason>) returns (r: Result<seq<CsvRow>, string>)
    ensures fmt == "csv" ==> r == Ok([HeaderRow(CsvHeader)] + DataRows(Rows(ars)))
    ensures fmt != "csv" ==> r == Err("Unknown format")
  {
    if fmt == "csv" {
      var rows := RenderCsv(ars);
      r := Ok(rows);
    } else {
      r := Err("Unknown format");
    }
  }

  // ---------------------------------------------------------------------------
  // What the rows say

  predicate DistinctReasons(s: seq<(string, nat)>) {
    forall i, j :: 0 <= i < j < |s| ==> s[i].0 != s[j].0
  }

  predicate HasReason(s: seq<(string, nat)>, r: string) {
    exists y :: y in s && y.0 == r
  }

  lemma DistinctCons(a: (string, nat), u: seq<(string, nat)>)
    requires DistinctReasons(u) && !HasReason(u, a.0)
    ensures DistinctReasons([a] + u)
  {
    var t := [a] + u;
    forall i, j | 0 <= i < j < |t| ensures t[i].0 != t[j].0 {
      assert t[j] == u[j - 1];
      if i > 0 {
        assert t[i] == u[i - 1];
      }
    }
  }

  lemma SameReasons(a: seq<(string, nat)>, b: seq<(string, nat)>)
    requires multiset(a) == multiset(b)
    ensures forall r :: HasReason(a, r) <==> HasReason(b, r)
  {
    forall r ensures HasReason(a, r) ==> HasReason(b, r) {
      if HasReason(a, r) {
        var y :| y in a && y.0 == r;
        assert y in multiset(b);
      }
    }
    forall r ensures HasReason(b, r) ==> HasReason(a, r) {
      if HasReason(b, r) {
        var y :| y in b && y.0 == r;
        assert y in multiset(a);
      }
    }
  }

  /** Sum of the counts. */
  function Total(s: seq<(string, nat)>): nat {
    if s == [] then 0 else s[0].1 + Total(s[1..])
  }

  lemma {:induction false} TotalSnoc(s: seq<(string, nat)>, y: (string, nat))
    ensures Total(s + [y]) == Total(s) + y.1
  {
    if s != [] {
      assert (s + [y])[1..] == s[1..] + [y];
      TotalSnoc(s[1..], y);
    } else {
      assert [y][1..] == [];
    }
  }

  lemma {:induction false} TotalInsert(x: (string, nat), s: seq<(string, nat)>)
    ensures Total(Insert(x, s, ByCountDesc)) == x.1 + Total(s)
  {
    if s != [] && !ByCountDesc(x, s[0]) {
      TotalInsert(x, s[1..]);
      assert ([s[0]] + Insert(x, s[1..], ByCountDesc))[1..] == Insert(x, s[1..], ByCountDesc);
    } else if s != [] {
      assert ([x] + s)[1..] == s;
    } else {
      assert [x][1..] == [];
    }
  }

  lemma {:induction false} TotalStableSort(s: seq<(string, nat)>)
    ensures Total(StableSort(s, ByCountDesc)) == Total(s)
  {
    if s != [] {
      TotalStableSort(s[1..]);
      TotalInsert(s[0], StableSort(s[1..], ByCountDesc));
    }
  }

  lemma {:induction false} TotalItemsFor(ks: seq<string>, ars: seq<AbortReason>)
    ensures Total(ItemsFor(ks, ars)) == SumSel(ks, ars, ReasonOf)
  {
    if ks != [] {
      var init := ks[..|ks| - 1];
      TotalItemsFor(init, ars);
      TotalSnoc(ItemsFor(init, ars), (ks[|ks| - 1], Occurrences(ars, ks[|ks| - 1])));
    }
  }

  /** Inserting an element with a new reason keeps the reasons distinct. */
  lemma {:induction false} InsertReasons(x: (string, nat), s: seq<(string, nat)>)
    requires DistinctReasons(s) && !HasReason(s, x.0)
    ensures DistinctReasons(Insert(x, s, ByCountDesc))
  {
    if s != [] && !ByCountDesc(x, s[0]) {
      var rest := s[1..];
      var u := Insert(x, rest, ByCountDesc);
      assert !HasReason(rest, x.0) by {
        forall y | y in rest ensures y in s {
        }
      }
      InsertReasons(x, rest);
      InsertMultiset(x, rest, ByCountDesc);
      assert !HasReason(u, s[0].0) by {
        forall y | y in u ensures y.0 != s[0].0 {
          assert y in multiset(rest) + multiset{x};
          if y != x {
            var i :| 0 <= i < |rest| && rest[i] == y;
            assert s[i + 1] == y;
          }
        }
      }
      DistinctCons(s[0], u);
    } else if s != [] {
      DistinctCons(x, s);
    }
  }

  /** Sorting keeps the reasons distinct and the same. */
  lemma {:induction false} StableSortReasons(s: seq<(string, nat)>)
    requires DistinctReasons(s)
    ensures DistinctReasons(StableSort(s, ByCountDesc))
    ensures forall r :: HasReason(StableSort(s, ByCountDesc), r) <==> HasReason(s, r)
  {
    ByCountDescPreorder();
    StableSortSorted(s, ByCountDesc);
    SameReasons(StableSort(s, ByCountDesc), s);
    if s != [] {
      var rest := s[1..];
      StableSortReasons(rest);
      StableSortSorted(rest, ByCountDesc);
      assert !HasReason(StableSort(rest, ByCountDesc), s[0].0) by {
        forall y | y in StableSort(rest, ByCountDesc) ensures y.0 != s[0].0 {
          assert y in multiset(rest);
          var i :| 0 <= i < |rest| && rest[i] == y;
          assert s[i + 1] == y;
        }
      }
      InsertReasons(s[0], StableSort(rest, ByCountDesc));
    }
  }

  lemma TallyFacts(ars: seq<AbortReason>)
    ensures DistinctReasons(Tally(ars))
    ensures forall r :: HasReason(Tally(ars), r) <==> Occurrences(ars, r) > 0
    ensures forall y :: y in Tally(ars) ==> y.1 == Occurrences(ars, y.0) && y.1 > 0
    ensures Total(Tally(ars)) == |ars|
  {
    var ks := FirstSeen(ars, ReasonOf);
    FirstSeenFacts(ars, ReasonOf);
    FirstSeenKeys(ars, ReasonOf);
    TotalItemsFor(ks, ars);
    SelectSum(ks, ars, ReasonOf);
    forall r ensures HasReason(Tally(ars), r) <==> r in ks {
      if r in ks {
        var i :| 0 <= i < |ks| && ks[i] == r;
        assert Tally(ars)[i] in Tally(ars);
      }
      if HasReason(Tally(ars), r) {
        var y :| y in Tally(ars) && y.0 == r;
        var i :| 0 <= i < |ks| && Tally(ars)[i] == y;
      }
    }
  }

  /** Every reason a record gives has exactly one row, no other reason has one,
      and each row's count is the number of records giving its reason. */
  lemma RowsCount(ars: seq<AbortReason>)
    ensures DistinctReasons(Rows(ars))
    ensures forall r :: HasReason(Rows(ars), r) <==> Occurrences(ars, r) > 0
    ensures forall k :: 0 <= k < |Rows(ars)| ==> Rows(ars)[k].1 == Occurrences(ars, Rows(ars)[k].0)
  {
    TallyFacts(ars);
    StableSortReasons(Tally(ars));
    ByCountDescPreorder();
    StableSortSorted(Tally(ars), ByCountDesc);
    forall k | 0 <= k < |Rows(ars)| ensures Rows(ars)[k].1 == Occurrences(ars, Rows(ars)[k].0) {
      assert Rows(ars)[k] in multiset(Rows(ars));
    }
  }

  /** The counts of the rows add up to the number of records. */
  lemma RowsTotal(ars: seq<AbortReason>)
    ensures Total(Rows(ars)) == |ars|
  {
    TallyFacts(ars);
    TotalStableSort(Tally(ars));
  }

  /** No row has a higher count than one before it, and rows with equal
      counts keep the order in which the records first gave their reasons. */
  lemma RowsOrder(ars: seq<AbortReason>, x: (string, nat))
    ensures forall i, j :: 0 <= i < j < |Rows(ars)| ==> Rows(ars)[i].1 >= Rows(ars)[j].1
    ensures Ties(Rows(ars), x, ByCountDesc) == Ties(Tally(ars), x, ByCountDesc)
  {
    ByCountDescPreorder();
    StableSortSorted(Tally(ars), ByCountDesc);
    StableSortStable(Tally(ars), x, ByCountDesc);
  }

  /** The header row comes first, then one data row per sorted item. */
  lemma {:induction false} CsvLayout(items: seq<(string, nat)>)
    ensures var rows := [HeaderRow(CsvHeader)] + DataRows(items);
            rows[0] == HeaderRow(["REASON", "COUNT"])
            && |rows| == |items| + 1
            && forall k :: 0 <= k < |items| ==> rows[k + 1] == DataRow(items[k].0, items[k].1)
  {
    DataRowsAt(items);
  }

  lemma {:induction false} DataRowsAt(items: seq<(string, nat)>)
    ensures forall k :: 0 <= k < |items| ==> DataRows(items)[k] == DataRow(items[k].0, items[k].1)
  {
    if items != [] {
      DataRowsAt(items[..|items| - 1]);
    }
  }
}
