/** The entries of src/c/simclist.c and the chains they form. */
module SimCEntry {
  /** A `void *` held by an entry. */
  type Data = int
  const NULL: Data := 0

  class Entry {
    var data: Data
    var next: Entry?
    var prev: Entry?

    constructor ()
      ensures next == null && prev == null
    {
      data, next, prev := NULL, null, null;
    }
  }

  /** Consecutive entries point at each other, and no entry occurs twice. */
  ghost predicate Chain(nodes: seq<Entry>)
    reads nodes`next, nodes`prev
  {
    && (forall i, j :: 0 <= i < j < |nodes| ==> nodes[i] != nodes[j])
    && (forall i {:trigger nodes[i].next} :: 0 <= i < |nodes| - 1 ==> nodes[i].next == nodes[i + 1])
    && (forall i {:trigger nodes[i].prev} :: 0 < i < |nodes| ==> nodes[i].prev == nodes[i - 1])
  }
}
