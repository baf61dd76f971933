/** The forest: the parsed traces grouped into bushes keyed by the id of their
    root trace (traceforest.py). */
module TraceForests {
  import opened Outcomes
  import opened Sorting
  import opened Counting
  import opened Traces
  import opened TraceBushes
  import opened Seqs

  /** The two dictionaries of `TraceForest.__init__`: `forest` (root id to the
      traces of its bush) and `roots` (trace id to the id of its bush). */
  datatype Grouping = Grouping(forest: map<nat, seq<TraceRec>>, roots: map<nat, nat>)

  const NoGrouping := Grouping(map[], map[])

  /** Every trace id names a bush, and every bush opens with a root trace whose
      id is the bush's key. */
  predicate Good(g: Grouping) {
    && (forall k :: k in g.roots ==> g.roots[k] in g.forest)
    && (forall k :: k in g.forest ==> |g.forest[k]| > 0 && g.forest[k][0].id == k && IsRoot(g.forest[k][0]))
  }

  /** One turn of the grouping loop; `Err(p)` is the `KeyError` that
      `roots[trace.parent_id]` raises for a parent not seen before. */
  function Grow(g: Grouping, t: TraceRec): (r: Result<Grouping, nat>)
    requires Good(g)
    ensures r.Ok? ==> Good(r.value)
  {
    if IsRoot(t) then Ok(Grouping(g.forest[t.id := [t]], g.roots[t.id := t.id]))
    else if t.parentId !in g.roots then Err(t.parentId)
    else
      var b := g.roots[t.parentId];
      Ok(Grouping(g.forest[b := g.forest[b] + [t]], g.roots[t.id := b]))
  }

  /** The rest of the loop, from the dictionaries `g`. */
  function GroupFrom(g: Grouping, ts: seq<TraceRec>): (r: Result<Grouping, nat>)
    requires Good(g)
    ensures r.Ok? ==> Good(r.value)
    decreases |ts|
  {
    if ts == [] then Ok(g)
    else match Grow(g, ts[0])
      case Err(p) => Err(p)
      case Ok(g1) => GroupFrom(g1, ts[1..])
  }

  /** `TraceForest(traces).bushes`, as the traces each bush holds. */
  function Bushes(ts: seq<TraceRec>): Result<map<nat, seq<TraceRec>>, nat> {
    match GroupFrom(NoGrouping, ts)
    case Ok(g) => Ok(g.forest)
    case Err(p) => Err(p)
  }

  function Ids(ts: seq<TraceRec>): set<nat> {
    set i | 0 <= i < |ts| :: ts[i].id
  }

  /** A side trace's parent comes before it, or is known to `g` already. */
  predicate ParentsKnown(g: Grouping, ts: seq<TraceRec>) {
    forall i :: 0 <= i < |ts| && !IsRoot(ts[i]) ==> ts[i].parentId in g.roots || ts[i].parentId in Ids(ts[..i])
  }

  lemma IdsCons(ts: seq<TraceRec>, i: nat)
    requires i < |ts|
    ensures Ids(ts[..i + 1]) == Ids(ts[..i]) + {ts[i].id}
  {
    assert ts[..i + 1] == ts[..i] + [ts[i]];
    var a, b := Ids(ts[..i + 1]), Ids(ts[..i]) + {ts[i].id};
    forall x | x in a ensures x in b {
      var j :| 0 <= j < i + 1 && ts[..i + 1][j].id == x;
      if j < i { assert ts[..i][j].id == x; }
    }
    forall x | x in b ensures x in a {
      if x in Ids(ts[..i]) {
        var j :| 0 <= j < i && ts[..i][j].id == x;
        assert ts[..i + 1][j].id == x;
      } else {
        assert ts[..i + 1][i].id == x;
      }
    }
  }

  lemma IdsTail(ts: seq<TraceRec>, i: nat)
    requires 0 < |ts| && i < |ts| - 1
    ensures Ids(ts[1..][..i]) + {ts[0].id} == Ids(ts[..i + 1])
  {
    var a, b := Ids(ts[1..][..i]) + {ts[0].id}, Ids(ts[..i + 1]);
    forall x | x in a ensures x in b {
      if x in Ids(ts[1..][..i]) {
        var j :| 0 <= j < i && ts[1..][..i][j].id == x;
        assert ts[..i + 1][j + 1].id == x;
      } else {
        assert ts[..i + 1][0].id == x;
      }
    }
    forall x | x in b ensures x in a {
      var j :| 0 <= j < i + 1 && ts[..i + 1][j].id == x;
      if j > 0 { assert ts[1..][..i][j - 1].id == x; }
    }
  }

  /** After a first trace that grows, the parents of the rest stay known. */
  lemma KnownTail(g: Grouping, g1: Grouping, ts: seq<TraceRec>)
    requires Good(g) && ts != [] && Grow(g, ts[0]) == Ok(g1) && ParentsKnown(g, ts)
    ensures ParentsKnown(g1, ts[1..])
  {
    assert g1.roots.Keys == g.roots.Keys + {ts[0].id};
    forall i | 0 <= i < |ts[1..]| && !IsRoot(ts[1..][i])
      ensures ts[1..][i].parentId in g1.roots || ts[1..][i].parentId in Ids(ts[1..][..i])
    {
      assert ts[1..][i] == ts[i + 1];
      IdsTail(ts, i);
    }
  }

  /** A first trace that grows, followed by traces whose parents are then
      known, makes all the parents known. */
  lemma KnownCons(g: Grouping, g1: Grouping, ts: seq<TraceRec>)
    requires Good(g) && ts != [] && Grow(g, ts[0]) == Ok(g1) && ParentsKnown(g1, ts[1..])
    ensures ParentsKnown(g, ts)
  {
    assert g1.roots.Keys == g.roots.Keys + {ts[0].id};
    forall i | 0 <= i < |ts| && !IsRoot(ts[i])
      ensures ts[i].parentId in g.roots || ts[i].parentId in Ids(ts[..i])
    {
      if i > 0 {
        assert ts[1..][i - 1] == ts[i];
        IdsTail(ts, i - 1);
      }
    }
  }

  /** The grouping fails exactly when some side trace's parent has not been
      seen before it; the error names that parent. */
  lemma {:induction false} GroupFromOk(g: Grouping, ts: seq<TraceRec>)
    requires Good(g)
    ensures GroupFrom(g, ts).Ok? <==> ParentsKnown(g, ts)
    ensures GroupFrom(g, ts).Err? ==>
              exists i :: 0 <= i < |ts| && !IsRoot(ts[i]) && GroupFrom(g, ts).error == ts[i].parentId
    decreases |ts|
  {
    if ts != [] {
      var t := ts[0];
      match Grow(g, t)
      case Err(p) =>
        assert !IsRoot(ts[0]) && ts[0].parentId !in g.roots && ts[..0] == [];
      case Ok(g1) =>
        GroupFromOk(g1, ts[1..]);
        if ParentsKnown(g, ts) {
          KnownTail(g, g1, ts);
        }
        if ParentsKnown(g1, ts[1..]) {
          KnownCons(g, g1, ts);
        }
        if GroupFrom(g1, ts[1..]).Err? {
          var i :| 0 <= i < |ts[1..]| && !IsRoot(ts[1..][i]) && GroupFrom(g1, ts[1..]).error == ts[1..][i].parentId;
          assert ts[1..][i] == ts[i + 1];
        }
    }
  }

  /** Every bush holds only traces listed in `s`. */
  predicate Within(g: Grouping, s: seq<TraceRec>) {
    forall k, i :: k in g.forest && 0 <= i < |g.forest[k]| ==> g.forest[k][i] in s
  }

  /** The bushes hold only the traces grouped: none is invented. */
  lemma {:induction false} GroupFromWithin(g: Grouping, done: seq<TraceRec>, ts: seq<TraceRec>)
    requires Good(g) && Within(g, done)
    ensures GroupFrom(g, ts).Ok? ==> Within(GroupFrom(g, ts).value, done + ts)
    decreases |ts|
  {
    if ts != [] {
      match Grow(g, ts[0])
      case Err(_) =>
      case Ok(g1) =>
        var d1 := done + [ts[0]];
        forall k, i | k in g1.forest && 0 <= i < |g1.forest[k]| ensures g1.forest[k][i] in d1 {
          if g1.forest[k][i] != ts[0] {
            assert k in g.forest && i < |g.forest[k]| && g1.forest[k][i] == g.forest[k][i];
          }
        }
        AppendHead(done, ts);
        GroupFromWithin(g1, d1, ts[1..]);
    }
  }

  /** `x` sits in the bush that `roots` names for its id. */
  predicate Holds(g: Grouping, x: TraceRec) {
    x.id in g.roots && g.roots[x.id] in g.forest && x in g.forest[g.roots[x.id]]
  }

  /** Every trace grouped so far sits in the bush `roots` names for it. */
  predicate Placed(g: Grouping, done: seq<TraceRec>) {
    forall i :: 0 <= i < |done| ==> Holds(g, done[i])
  }

  predicate DistinctIds(ts: seq<TraceRec>) {
    forall i, j :: 0 <= i < j < |ts| ==> ts[i].id != ts[j].id
  }

  /** A trace already placed stays where it is when a trace with a new id comes. */
  lemma GrowKeeps(g: Grouping, t: TraceRec, x: TraceRec)
    requires Good(g) && t.id !in g.roots && t.id !in g.forest && Grow(g, t).Ok? && Holds(g, x)
    ensures Holds(Grow(g, t).value, x)
  {
    var c := g.roots[x.id];
    if !IsRoot(t) {
      var b := g.roots[t.parentId];
      if c == b {
        assert x in g.forest[b] + [t];
      }
    }
  }

  lemma GrowPlaced(g: Grouping, done: seq<TraceRec>, t: TraceRec)
    requires Good(g) && Placed(g, done) && t.id !in g.roots && t.id !in g.forest && Grow(g, t).Ok?
    ensures Placed(Grow(g, t).value, done + [t])
  {
    var h := Grow(g, t).value;
    var d := done + [t];
    forall i | 0 <= i < |d| ensures Holds(h, d[i]) {
      if i < |done| {
        assert d[i] == done[i];
        GrowKeeps(g, t, done[i]);
      }
    }
  }

  /** With distinct ids, every trace ends up in the bush of the root it grows from. */
  lemma {:induction false} GroupFromPlaces(g: Grouping, done: seq<TraceRec>, ts: seq<TraceRec>)
    requires Good(g) && Placed(g, done) && DistinctIds(ts)
    requires forall j :: 0 <= j < |ts| ==> ts[j].id !in g.roots && ts[j].id !in g.forest
    ensures GroupFrom(g, ts).Ok? ==> Placed(GroupFrom(g, ts).value, done + ts)
    decreases |ts|
  {
    if ts == [] {
      assert done + ts == done;
    } else {
      match Grow(g, ts[0])
      case Err(_) =>
      case Ok(g1) =>
        GrowPlaced(g, done, ts[0]);
        forall j | 0 <= j < |ts[1..]| ensures ts[1..][j].id !in g1.roots && ts[1..][j].id !in g1.forest {
          assert ts[1..][j] == ts[j + 1];
        }
        AppendHead(done, ts);
        GroupFromPlaces(g1, done + [ts[0]], ts[1..]);
    }
  }

  /** The forest of a dump whose trace ids are distinct: every trace is in the
      bush of its root, and every bush is keyed by a root among them. */
  lemma BushesPlace(ts: seq<TraceRec>)
    requires DistinctIds(ts)
    ensures var r := GroupFrom(NoGrouping, ts);
            r.Ok? ==> Placed(r.value, ts) && Good(r.value)
  {
    assert [] + ts == ts;
    GroupFromPlaces(NoGrouping, [], ts);
  }

  // ---------------------------------------------------------------------------
  // The forest partitions the traces

  /** The bush `roots` assigns a trace to, or -1 for a trace it does not know. */
  function RootKey(roots: map<nat, nat>): TraceRec -> int {
    (x: TraceRec) => if x.id in roots then roots[x.id] as int else -1
  }

  predicate InBush(roots: map<nat, nat>, t: TraceRec, k: nat) {
    t.id in roots && roots[t.id] == k
  }

  /** The traces of `done` that `roots` assigns to bush `k`, in input order. */
  function Members(done: seq<TraceRec>, roots: map<nat, nat>, k: nat): seq<TraceRec> {
    if done == [] then []
    else Members(done[..|done| - 1], roots, k) + (if InBush(roots, done[|done| - 1], k) then [done[|done| - 1]] else [])
  }

  lemma {:induction false} MembersSelect(done: seq<TraceRec>, roots: map<nat, nat>, k: nat)
    ensures Members(done, roots, k) == Select(done, RootKey(roots), k)
  {
    if done != [] {
      MembersSelect(done[..|done| - 1], roots, k);
    }
  }

  lemma MembersSnoc(done: seq<TraceRec>, t: TraceRec, roots: map<nat, nat>, k: nat)
    ensures Members(done + [t], roots, k) == Members(done, roots, k) + (if InBush(roots, t, k) then [t] else [])
  {
    assert (done + [t])[..|done|] == done;
  }

  /** A new entry for an id none of `done` has leaves their bushes alone. */
  lemma {:induction false} MembersAgree(done: seq<TraceRec>, roots: map<nat, nat>, id: nat, v: nat, k: nat)
    requires forall i :: 0 <= i < |done| ==> done[i].id != id
    ensures Members(done, roots[id := v], k) == Members(done, roots, k)
  {
    if done != [] {
      MembersAgree(done[..|done| - 1], roots, id, v, k);
    }
  }

  lemma {:induction false} MembersNone(done: seq<TraceRec>, roots: map<nat, nat>, k: nat)
    requires forall i :: 0 <= i < |done| ==> !InBush(roots, done[i], k)
    ensures Members(done, roots, k) == []
  {
    if done != [] {
      MembersNone(done[..|done| - 1], roots, k);
    }
  }

  /** Every trace grouped so far is known to `roots` and its bush exists, and
      every bush holds exactly the traces `roots` assigns to it, in input order. */
  predicate Partitioned(g: Grouping, done: seq<TraceRec>) {
    && (forall i :: 0 <= i < |done| ==> done[i].id in g.roots && g.roots[done[i].id] in g.forest)
    && (forall k :: k in g.forest ==> g.forest[k] == Members(done, g.roots, k))
  }

  lemma GrowRootPartition(g: Grouping, done: seq<TraceRec>, t: TraceRec, g1: Grouping)
    requires Partitioned(g, done) && t.id !in g.roots && t.id !in g.forest
    requires g1 == Grouping(g.forest[t.id := [t]], g.roots[t.id := t.id])
    ensures Partitioned(g1, done + [t])
  {
    var d := done + [t];
    forall i | 0 <= i < |d| ensures d[i].id in g1.roots && g1.roots[d[i].id] in g1.forest {
      if i < |done| {
        assert d[i] == done[i];
      }
    }
    assert forall i :: 0 <= i < |done| ==> done[i].id in g.roots;
    forall k | k in g1.forest ensures g1.forest[k] == Members(d, g1.roots, k) {
      MembersSnoc(done, t, g1.roots, k);
      MembersAgree(done, g.roots, t.id, t.id, k);
      if k == t.id {
        MembersNone(done, g.roots, k);
      }
    }
  }

  lemma GrowSidePartition(g: Grouping, done: seq<TraceRec>, t: TraceRec, b: nat, g1: Grouping)
    requires Partitioned(g, done) && t.id !in g.roots && b in g.forest
    requires g1 == Grouping(g.forest[b := g.forest[b] + [t]], g.roots[t.id := b])
    ensures Partitioned(g1, done + [t])
  {
    var d := done + [t];
    forall i | 0 <= i < |d| ensures d[i].id in g1.roots && g1.roots[d[i].id] in g1.forest {
      if i < |done| {
        assert d[i] == done[i];
      }
    }
    assert forall i :: 0 <= i < |done| ==> done[i].id in g.roots;
    forall k | k in g1.forest ensures g1.forest[k] == Members(d, g1.roots, k) {
      MembersSnoc(done, t, g1.roots, k);
      MembersAgree(done, g.roots, t.id, b, k);
    }
  }

  lemma GrowPartition(g: Grouping, done: seq<TraceRec>, t: TraceRec)
    requires Good(g) && Partitioned(g, done) && t.id !in g.roots && t.id !in g.forest && Grow(g, t).Ok?
    ensures Partitioned(Grow(g, t).value, done + [t])
  {
    if IsRoot(t) {
      GrowRootPartition(g, done, t, Grow(g, t).value);
    } else {
      GrowSidePartition(g, done, t, g.roots[t.parentId], Grow(g, t).value);
    }
  }

  /** One grown trace keeps the partition and leaves the rest of the ids
      unused. */
  lemma PartitionStep(g: Grouping, done: seq<TraceRec>, ts: seq<TraceRec>, g1: Grouping)
    requires Good(g) && Partitioned(g, done) && DistinctIds(ts) && ts != []
    requires forall j :: 0 <= j < |ts| ==> ts[j].id !in g.roots && ts[j].id !in g.forest
    requires Grow(g, ts[0]) == Ok(g1)
    ensures Good(g1) && Partitioned(g1, done + [ts[0]]) && DistinctIds(ts[1..])
    ensures forall j :: 0 <= j < |ts[1..]| ==> ts[1..][j].id !in g1.roots && ts[1..][j].id !in g1.forest
  {
    GrowPartition(g, done, ts[0]);
    forall j | 0 <= j < |ts[1..]| ensures ts[1..][j].id !in g1.roots && ts[1..][j].id !in g1.forest {
      assert ts[1..][j] == ts[j + 1];
    }
  }

  lemma {:induction false} GroupFromPartition(g: Grouping, done: seq<TraceRec>, ts: seq<TraceRec>)
    requires Good(g) && Partitioned(g, done) && DistinctIds(ts)
    requires forall j :: 0 <= j < |ts| ==> ts[j].id !in g.roots && ts[j].id !in g.forest
    ensures GroupFrom(g, ts).Ok? ==> Partitioned(GroupFrom(g, ts).value, done + ts)
    decreases |ts|
  {
    if ts == [] {
      assert done + ts == done;
    } else {
      match Grow(g, ts[0])
      case Err(_) =>
      case Ok(g1) =>
        PartitionStep(g, done, ts, g1);
        AppendHead(done, ts);
        GroupFromPartition(g1, done + [ts[0]], ts[1..]);
    }
  }

  /** With distinct ids, the forest partitions the traces: each bush holds, in
      input order, exactly the traces `roots` assigns to it, and `roots`
      assigns every trace to an existing bush. */
  lemma BushesPartition(ts: seq<TraceRec>)
    requires DistinctIds(ts)
    ensures var r := GroupFrom(NoGrouping, ts);
            r.Ok? ==> Partitioned(r.value, ts)
  {
    assert [] + ts == ts;
    GroupFromPartition(NoGrouping, [], ts);
  }

  lemma {:induction false} MembersIn(done: seq<TraceRec>, roots: map<nat, nat>, k: nat)
    ensures forall y :: y in Members(done, roots, k) <==> y in done && InBush(roots, y, k)
  {
    if done != [] {
      var init := done[..|done| - 1];
      MembersIn(init, roots, k);
      assert done == init + [done[|done| - 1]];
    }
  }

  lemma PartitionOnce(g: Grouping, ts: seq<TraceRec>)
    requires Partitioned(g, ts)
    ensures forall k, i :: k in g.forest && 0 <= i < |ts| ==>
              ts[i].id in g.roots && (ts[i] in g.forest[k] <==> g.roots[ts[i].id] == k)
  {
    forall k, i | k in g.forest && 0 <= i < |ts|
      ensures ts[i].id in g.roots && (ts[i] in g.forest[k] <==> g.roots[ts[i].id] == k)
    {
      MembersIn(ts, g.roots, k);
    }
  }

  /** Each trace sits in exactly one bush: the one `roots` names for it. */
  lemma BushesExactlyOnce(ts: seq<TraceRec>)
    requires DistinctIds(ts)
    ensures var r := GroupFrom(NoGrouping, ts);
            r.Ok? ==> forall k, i :: k in r.value.forest && 0 <= i < |ts| ==>
                        ts[i].id in r.value.roots && (ts[i] in r.value.forest[k] <==> r.value.roots[ts[i].id] == k)
  {
    BushesPartition(ts);
    if GroupFrom(NoGrouping, ts).Ok? {
      PartitionOnce(GroupFrom(NoGrouping, ts).value, ts);
    }
  }

  // ---------------------------------------------------------------------------
  // Bushes follow the parent ids

  /** `roots` sends a root to its own bush and a side trace to its parent's. */
  predicate Follows(roots: map<nat, nat>, x: TraceRec) {
    && x.id in roots
    && (if IsRoot(x) then roots[x.id] == x.id
        else x.parentId in roots && roots[x.id] == roots[x.parentId])
  }

  predicate RootsFollow(g: Grouping, done: seq<TraceRec>) {
    forall i :: 0 <= i < |done| ==> Follows(g.roots, done[i])
  }

  /** A trace with a new id that grows keeps what `roots` says of earlier traces
      and is itself sent to its own bush or its parent's. */
  lemma GrowFollows(g: Grouping, done: seq<TraceRec>, t: TraceRec, g1: Grouping)
    requires Good(g) && RootsFollow(g, done) && t.id !in g.roots && Grow(g, t) == Ok(g1)
    ensures RootsFollow(g1, done + [t])
  {
    var d := done + [t];
    assert g1.roots == g.roots[t.id := if IsRoot(t) then t.id else g.roots[t.parentId]];
    forall i | 0 <= i < |d| ensures Follows(g1.roots, d[i]) {
      if i < |done| {
        assert d[i] == done[i] && Follows(g.roots, done[i]);
      }
    }
  }

  lemma FollowStep(g: Grouping, done: seq<TraceRec>, ts: seq<TraceRec>, g1: Grouping)
    requires Good(g) && RootsFollow(g, done) && DistinctIds(ts) && ts != []
    requires forall j :: 0 <= j < |ts| ==> ts[j].id !in g.roots
    requires Grow(g, ts[0]) == Ok(g1)
    ensures Good(g1) && RootsFollow(g1, done + [ts[0]]) && DistinctIds(ts[1..])
    ensures forall j :: 0 <= j < |ts[1..]| ==> ts[1..][j].id !in g1.roots
  {
    GrowFollows(g, done, ts[0], g1);
    assert g1.roots.Keys == g.roots.Keys + {ts[0].id};
    forall j | 0 <= j < |ts[1..]| ensures ts[1..][j].id !in g1.roots {
      assert ts[1..][j] == ts[j + 1];
    }
  }

  lemma {:induction false} GroupFromFollows(g: Grouping, done: seq<TraceRec>, ts: seq<TraceRec>)
    requires Good(g) && RootsFollow(g, done) && DistinctIds(ts)
    requires forall j :: 0 <= j < |ts| ==> ts[j].id !in g.roots
    ensures GroupFrom(g, ts).Ok? ==> RootsFollow(GroupFrom(g, ts).value, done + ts)
    decreases |ts|
  {
    if ts == [] {
      assert done + ts == done;
    } else {
      match Grow(g, ts[0])
      case Err(_) =>
      case Ok(g1) =>
        FollowStep(g, done, ts, g1);
        AppendHead(done, ts);
        GroupFromFollows(g1, done + [ts[0]], ts[1..]);
    }
  }

  /** With distinct ids, `roots[trace.id]` is the trace's own id for a root and
      its parent's entry for a side trace, as `roots[trace.parent_id]` gives it. */
  lemma BushesFollowParents(ts: seq<TraceRec>)
    requires DistinctIds(ts)
    ensures var r := GroupFrom(NoGrouping, ts);
            r.Ok? ==> forall i :: 0 <= i < |ts| ==>
              && ts[i].id in r.value.roots
              && (IsRoot(ts[i]) ==> r.value.roots[ts[i].id] == ts[i].id)
              && (!IsRoot(ts[i]) ==> ts[i].parentId in r.value.roots
                                     && r.value.roots[ts[i].id] == r.value.roots[ts[i].parentId])
  {
    assert [] + ts == ts;
    GroupFromFollows(NoGrouping, [], ts);
    if GroupFrom(NoGrouping, ts).Ok? {
      var r := GroupFrom(NoGrouping, ts).value;
      forall i | 0 <= i < |ts| ensures Follows(r.roots, ts[i]) {
      }
    }
  }

  /** The last index below `n` with trace id `id`, or `n` when there is none. */
  function IdIndex(ts: seq<TraceRec>, id: nat, n: nat): (j: nat)
    requires n <= |ts|
    ensures j <= n
    ensures j < n ==> ts[j].id == id
    ensures j == n ==> forall k :: 0 <= k < n ==> ts[k].id != id
  {
    if n == 0 then 0
    else if ts[n - 1].id == id then n - 1
    else
      var j := IdIndex(ts, id, n - 1);
      if j == n - 1 then n else j
  }

  /** The index of the root reached from trace `i` by following parent ids to
      earlier traces (a trace whose parent comes before no one stops the walk). */
  function ChainRoot(ts: seq<TraceRec>, i: nat): (r: nat)
    requires i < |ts|
    ensures r <= i
    decreases i
  {
    if IsRoot(ts[i]) then i
    else
      var j := IdIndex(ts, ts[i].parentId, i);
      if j == i then i else ChainRoot(ts, j)
  }

  /** Along a grouping that succeeds, every walk along parent ids ends at a
      root, and `roots` sends each trace to the id of that root. */
  lemma {:induction false} RootsReachRoot(ts: seq<TraceRec>, r: Grouping, i: nat)
    requires i < |ts| && ParentsKnown(NoGrouping, ts) && RootsFollow(r, ts)
    ensures IsRoot(ts[ChainRoot(ts, i)])
    ensures r.roots[ts[i].id] == ts[ChainRoot(ts, i)].id
    decreases i
  {
    assert Follows(r.roots, ts[i]);
    if !IsRoot(ts[i]) {
      var j := IdIndex(ts, ts[i].parentId, i);
      assert ts[i].parentId in Ids(ts[..i]);
      var k :| 0 <= k < i && ts[..i][k].id == ts[i].parentId;
      assert ts[k].id == ts[i].parentId;
      RootsReachRoot(ts, r, j);
    }
  }

  /** With distinct ids, a trace is in bush `k` exactly when following its
      parent ids from trace to trace leads to the root whose id is `k`: side
      traces at any depth share the bush of the root they grow from. */
  lemma BushOfChainRoot(ts: seq<TraceRec>)
    requires DistinctIds(ts)
    ensures var r := GroupFrom(NoGrouping, ts);
            r.Ok? ==> forall k, i :: k in r.value.forest && 0 <= i < |ts| ==>
                        IsRoot(ts[ChainRoot(ts, i)]) && (ts[i] in r.value.forest[k] <==> ts[ChainRoot(ts, i)].id == k)
  {
    BushesExactlyOnce(ts);
    GroupFromOk(NoGrouping, ts);
    assert [] + ts == ts;
    GroupFromFollows(NoGrouping, [], ts);
    if GroupFrom(NoGrouping, ts).Ok? {
      var r := GroupFrom(NoGrouping, ts).value;
      forall i | 0 <= i < |ts|
        ensures IsRoot(ts[ChainRoot(ts, i)]) && r.roots[ts[i].id] == ts[ChainRoot(ts, i)].id
      {
        RootsReachRoot(ts, r, i);
      }
    }
  }

  /** The bush keys in ascending order, each once. */
  function BushKeys(forest: map<nat, seq<TraceRec>>): (r: seq<nat>)
    ensures forall k :: k in forest <==> k in r
    ensures SortedBy(r, NatLe)
    ensures forall i, j :: 0 <= i < j < |r| ==> r[i] != r[j]
  {
    NatLeTotal();
    SortSetFacts(forest.Keys, NatLe);
    SortSet(forest.Keys, NatLe)
  }

  /** The sizes of the bushes `ks`, added up. */
  function SizesSum(forest: map<nat, seq<TraceRec>>, ks: seq<nat>): nat
    requires forall j :: 0 <= j < |ks| ==> ks[j] in forest
  {
    if ks == [] then 0 else SizesSum(forest, ks[..|ks| - 1]) + |forest[ks[|ks| - 1]]|
  }

  lemma {:induction false} SizesSumSel(g: Grouping, ts: seq<TraceRec>, ks: seq<nat>)
    requires Partitioned(g, ts)
    requires forall j :: 0 <= j < |ks| ==> ks[j] in g.forest
    ensures SizesSum(g.forest, ks) == SumSel(ks, ts, RootKey(g.roots))
  {
    if ks != [] {
      SizesSumSel(g, ts, ks[..|ks| - 1]);
      MembersSelect(ts, g.roots, ks[|ks| - 1]);
    }
  }

  lemma PartitionSizes(g: Grouping, ts: seq<TraceRec>)
    requires Partitioned(g, ts)
    ensures SizesSum(g.forest, BushKeys(g.forest)) == |ts|
  {
    var ks := BushKeys(g.forest);
    SizesSumSel(g, ts, ks);
    var iks: seq<int> := ks;
    assert Distinct(iks);
    forall i | 0 <= i < |ts| ensures RootKey(g.roots)(ts[i]) in iks {
      assert g.roots[ts[i].id] in g.forest;
    }
    SelectSum(iks, ts, RootKey(g.roots));
  }

  /** The bush sizes add up to the number of traces. */
  lemma BushSizes(ts: seq<TraceRec>)
    requires DistinctIds(ts)
    ensures var r := GroupFrom(NoGrouping, ts);
            r.Ok? ==> SizesSum(r.value.forest, BushKeys(r.value.forest)) == |ts|
  {
    BushesPartition(ts);
    if GroupFrom(NoGrouping, ts).Ok? {
      PartitionSizes(GroupFrom(NoGrouping, ts).value, ts);
    }
  }

  // ---------------------------------------------------------------------------
  // The objects

  /** The traces of each bush object. */
  ghost function Contents(m: map<nat, TraceBush>): map<nat, seq<TraceRec>>
    reads m.Values
  {
    map k | k in m :: m[k].traces
  }

  /** Different keys hold different bush objects. */
  ghost predicate Separate(m: map<nat, TraceBush>) {
    forall a, b :: a in m && b in m && a != b ==> m[a] != m[b]
  }

  class TraceForest {
    /** `bushes`: root id to bush. */
    var bushes: map<nat, TraceBush>

    constructor(m: map<nat, TraceBush>)
      ensures bushes == m
    {
      bushes := m;
    }

    /** `TraceForest(traces)`: the grouping loop over bush objects. */
    static method Build(traces: seq<TraceRec>) returns (r: Result<TraceForest, nat>)
      ensures match Bushes(traces)
              case Ok(m) => r.Ok? && fresh(r.value) && Contents(r.value.bushes) == m
                            && forall k :: k in r.value.bushes ==>
                                 r.value.bushes[k].Valid() && r.value.bushes[k].rootId == k
              case Err(p) => r == Err(p)
    {
      var forest: map<nat, TraceBush> := map[];
      var roots: map<nat, nat> := map[];
      ghost var held: map<nat, seq<TraceRec>> := map[];
      var i := 0;
      while i < |traces|
        invariant i <= |traces|
        invariant Separate(forest) && Mirrors(forest, held)
        invariant forall k :: k in forest ==> fresh(forest[k])
        invariant Good(Grouping(held, roots))
        invariant GroupFrom(NoGrouping, traces) == GroupFrom(Grouping(held, roots), traces[i..])
      {
        assert traces[i..][0] == traces[i] && traces[i..][1..] == traces[i + 1..];
        ghost var g := Grouping(held, roots);
        var e: Option<nat>;
        e, forest, roots := Place(forest, held, roots, traces[i]);
        if e.Some? {
          return Err(e.value);
        }
        held := Grow(g, traces[i]).value.forest;
        i := i + 1;
      }
      assert traces[i..] == [];
      var f := new TraceForest(forest);
      MirrorsContents(forest, held);
      r := Ok(f);
    }
  }

  /** One turn of the loop on the bush objects. */
  method Place(forest: map<nat, TraceBush>, ghost held: map<nat, seq<TraceRec>>, roots: map<nat, nat>, t: TraceRec)
    returns (e: Option<nat>, forest': map<nat, TraceBush>, roots': map<nat, nat>)
    requires Separate(forest) && Mirrors(forest, held) && Good(Grouping(held, roots))
    modifies forest.Values
    ensures match Grow(Grouping(held, roots), t)
            case Err(p) => e == Some(p)
            case Ok(g) => e.None? && roots' == g.roots && Separate(forest') && Mirrors(forest', g.forest)
    ensures forall k :: k in forest' ==> fresh(forest'[k]) || forest'[k] in forest.Values
  {
    e := None;
    if IsRoot(t) {
      forest' := Plant(forest, held, t);
      roots' := roots[t.id := t.id];
      assert Grow(Grouping(held, roots), t) == Ok(Grouping(held[t.id := [t]], roots'));
    } else {
      if t.parentId !in roots {
        return Some(t.parentId), forest, roots;
      }
      var b := roots[t.parentId];
      AppendTo(forest, held, b, t);
      forest', roots' := forest, roots[t.id := b];
      assert Grow(Grouping(held, roots), t) == Ok(Grouping(held[b := held[b] + [t]], roots'));
    }
  }

  lemma MirrorsContents(forest: map<nat, TraceBush>, held: map<nat, seq<TraceRec>>)
    requires Mirrors(forest, held)
    ensures Contents(forest) == held
  {
  }

  /** The bush objects hold the traces `held` lists, key by key, and each is
      keyed by its root id. */
  ghost predicate Mirrors(forest: map<nat, TraceBush>, held: map<nat, seq<TraceRec>>)
    reads forest.Values
  {
    && forest.Keys == held.Keys
    && forall k :: k in forest ==> forest[k].traces == held[k] && forest[k].rootId == k
                                   && (|held[k]| > 0 && held[k][0].id == k ==> forest[k].Valid())
  }

  /** `forest[root_id] = TraceBush(trace)`: a fresh bush replaces whatever the key held. */
  method Plant(forest: map<nat, TraceBush>, ghost held: map<nat, seq<TraceRec>>, t: TraceRec)
    returns (f: map<nat, TraceBush>)
    requires Separate(forest) && Mirrors(forest, held)
    ensures Separate(f) && Mirrors(f, held[t.id := [t]])
    ensures fresh(f[t.id]) && forall k :: k in f && k != t.id ==> k in forest && f[k] == forest[k]
  {
    var bush := new TraceBush(t);
    f := forest[t.id := bush];
  }

  /** `forest[root_id].append(trace)`: only that bush grows. */
  method AppendTo(forest: map<nat, TraceBush>, ghost held: map<nat, seq<TraceRec>>, b: nat, t: TraceRec)
    requires b in forest && Separate(forest) && Mirrors(forest, held) && |held[b]| > 0 && held[b][0].id == b
    modifies forest[b]
    ensures Mirrors(forest, held[b := held[b] + [t]])
  {
    forest[b].Append(t);
    forall k | k in forest && k != b ensures forest[k].traces == old(forest[k].traces) {
      assert forest[k] != forest[b];
    }
  }
}
