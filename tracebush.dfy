/** A bush: a root trace and the side traces that grow out of it, in the
    order the dump lists them (tracebush.py). */
module TraceBushes {
  import opened Traces

  class TraceBush {
    /** `root_id`: the id of the trace the bush was made from. */
    const rootId: nat
    /** `traces`: the root first, then the side traces appended to it. */
    var traces: seq<TraceRec>

    /** The first trace is the one the bush was made from. */
    ghost predicate Valid()
      reads this
    {
      |traces| > 0 && traces[0].id == rootId
    }

    constructor(root: TraceRec)
      ensures rootId == root.id && traces == [root]
      ensures Valid()
    {
      rootId := root.id;
      traces := [root];
    }

    /** `size`: one more than the side traces appended so far. */
    function Size(): (n: nat)
      reads this
      requires Valid()
      ensures n >= 1 && n == |traces|
    {
      |traces|
    }

    /** `append(trace)`: the trace goes last; the root stays first. */
    method Append(t: TraceRec)
      requires Valid()
      modifies this
      ensures Valid()
      ensures traces == old(traces) + [t]
    {
      traces := traces + [t];
    }
  }
}
