/** Call sequences a host makes across the boundary, and what it observes. */
module Scenarios {
  import opened Items
  import opened Boundary

  /** Create an Item, set its name and due date, read the name and both
      dates back, destroy it. The host sees the decoded name, exactly the
      due-date argument it passed (null included), and a null completion
      date. */
  method SetThenGet<L>(raw: CStr, decode: CStr -> string, dueArg: Option<I64>)
    returns (name: string, due: Option<I64>, done: Option<I64>)
    ensures name == decode(raw)
    ensures due == dueArg
    ensures done == None
  {
    var heap := new Heap<L>();
    var h := heap.ItemNew();
    heap.ItemSetName(h, raw, decode);
    heap.ItemSetDueDate(h, dueArg);
    name := heap.ItemGetName(h);
    var p := heap.ItemGetDueDate(h);
    due := heap.ReadSec(p);
    var q := heap.ItemGetCompletionDate(h);
    done := heap.ReadSec(q);
    heap.ItemDestroy(h);
  }

  /** Create an Item and copy out its labels: the count is 0 and the copy
      is empty, so no index satisfies the precondition of `item_label_at`. */
  method FreshItemHasNoLabels<L>() returns (count: I32, copied: nat)
    ensures count == 0
    ensures copied == 0
  {
    var heap := new Heap<L>();
    var h := heap.ItemNew();
    var v := heap.ItemGetLabels(h);
    count := heap.ItemLabelsCount(h);
    copied := |heap.labelLists[v]|;
    heap.ItemDestroy(h);
  }

  /** Copy an Item's labels, then copy out the label at `i`: it is the
      Item's `i`-th label, and the Item itself is untouched. */
  method CopiedLabelAt<L>(heap: Heap<L>, h: Handle, i: nat) returns (b: Handle)
    requires heap.Valid() && h in heap.items && i < |heap.items[h].labels|
    modifies heap
    ensures heap.Valid()
    ensures b in heap.labels && heap.labels[b] == old(heap.items[h].labels[i])
    ensures heap.items == old(heap.items)
  {
    var v := heap.ItemGetLabels(h);
    b := heap.ItemLabelAt(v, i);
  }
}
