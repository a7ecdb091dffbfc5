/** The C boundary: every entry point that hands a pointer across, over a
    heap of boxed values. A handle is an address; an address is live while
    it holds a box, and each box is one of the four kinds the entry points
    allocate. */
module Boundary {
  import opened Items

  /** An address of a boxed value. Address 0 is the null pointer, which no
      box ever has; where an entry point may return null, the result is an
      `Option<Handle>`. */
  type Handle = x: nat | x > 0 witness 1

  /** A C string's bytes before its terminating NUL. */
  type CStr = seq<bv8>

  /** A bound strictly above every address in use. */
  ghost function Above(used: set<Handle>): (b: Handle)
    ensures forall a :: a in used ==> a < b
    decreases used
  {
    if used == {} then 1
    else
      var a :| a in used;
      var rest := Above(used - {a});
      assert forall x :: x in used && x != a ==> x in used - {a};
      if rest <= a then a + 1 else rest
  }

  class Heap<L> {
    /** `Box<Item>` cells, from `item_new` */
    var items: map<Handle, Item<L>>
    /** `Box<Vec<Label>>` cells, from `item_get_labels` */
    var labelLists: map<Handle, seq<L>>
    /** `Box<Label>` cells, from `item_label_at` */
    var labels: map<Handle, L>
    /** `Box<i64>` cells, from the date getters */
    var secs: map<Handle, I64>

    /** Every address that currently holds a box. */
    function Live(): set<Handle>
      reads this
    {
      items.Keys + labelLists.Keys + labels.Keys + secs.Keys
    }

    /** No address holds two boxes. */
    ghost predicate Valid()
      reads this
    {
      && items.Keys !! labelLists.Keys && items.Keys !! labels.Keys && items.Keys !! secs.Keys
      && labelLists.Keys !! labels.Keys && labelLists.Keys !! secs.Keys
      && labels.Keys !! secs.Keys
    }

    /** The address space before the host has been handed anything. */
    constructor ()
      ensures Valid() && Live() == {}
      ensures items == map[] && labelLists == map[] && labels == map[] && secs == map[]
    {
      items, labelLists, labels, secs := map[], map[], map[], map[];
    }

    /** `Box::new`: the allocator returns an address that holds nothing. */
    method FreshAddress() returns (a: Handle)
      ensures a !in Live()
    {
      ghost var bound := Above(Live());
      assert bound !in Live();
      a :| a !in Live();
    }

    /** The pointer the host receives from a date getter, read back: null
        stays null, otherwise the seconds in the box. */
    function ReadSec(p: Option<Handle>): (v: Option<I64>)
      reads this
      requires p.Some? ==> p.value in secs
      ensures v.None? <==> p.None?
    {
      match p
      case None => None
      case Some(c) => Some(secs[c])
    }

    // -------------------------------------------------------------
    // Lifecycle
    // -------------------------------------------------------------

    /** `item_new`: box a default Item and give its address away. */
    method ItemNew() returns (h: Handle)
      requires Valid()
      modifies this
      ensures Valid()
      ensures h !in old(Live())
      ensures items == old(items)[h := NewItem()]
      ensures labelLists == old(labelLists) && labels == old(labels) && secs == old(secs)
    {
      h := FreshAddress();
      items := items[h := NewItem()];
    }

    /** `item_destroy`: take the box back and drop it. Only a live Item
        handle may be passed; null and double destroy are undefined. */
    method ItemDestroy(h: Handle)
      requires Valid() && h in items
      modifies this
      ensures Valid()
      ensures items == old(items) - {h}
      ensures Live() == old(Live()) - {h}
      ensures labelLists == old(labelLists) && labels == old(labels) && secs == old(secs)
    {
      items := items - {h};
    }

    // -------------------------------------------------------------
    // Name
    // -------------------------------------------------------------

    /** `item_get_name`: a copy of the name; the item is only read. */
    method ItemGetName(h: Handle) returns (name: string)
      requires h in items
      ensures name == items[h].name
    {
      name := items[h].name;
    }

    /** `item_set_name`: replace the name by the decoding of the C string.
        `decode` stands for the foreign `c_char_to_string`. */
    method ItemSetName(h: Handle, raw: CStr, decode: CStr -> string)
      requires Valid() && h in items
      modifies this
      ensures Valid() && Live() == old(Live())
      ensures items == old(items)[h := old(items)[h].WithName(decode(raw))]
      ensures labelLists == old(labelLists) && labels == old(labels) && secs == old(secs)
    {
      items := items[h := items[h].WithName(decode(raw))];
    }

    // -------------------------------------------------------------
    // Dates
    // -------------------------------------------------------------

    /** The body both date getters share: null for an absent date,
        otherwise a fresh box holding its seconds. */
    method BoxSeconds(d: Option<Timespec>) returns (p: Option<Handle>)
      requires Valid()
      modifies this
      ensures Valid()
      ensures items == old(items) && labelLists == old(labelLists) && labels == old(labels)
      ensures d.None? ==> p.None? && secs == old(secs)
      ensures d.Some? ==> p.Some? && p.value !in old(Live()) && secs == old(secs)[p.value := d.value.sec]
      ensures ReadSec(p) == DateToOut(d)
    {
      match d
      case None =>
        p := None;
      case Some(t) =>
        var c := FreshAddress();
        secs := secs[c := t.sec];
        p := Some(c);
    }

    /** `item_get_due_date` */
    method ItemGetDueDate(h: Handle) returns (p: Option<Handle>)
      requires Valid() && h in items
      modifies this
      ensures Valid()
      ensures items == old(items) && labelLists == old(labelLists) && labels == old(labels)
      ensures items[h].dueDate.None? ==> p.None? && secs == old(secs)
      ensures items[h].dueDate.Some? ==>
        (p.Some? && p.value !in old(Live()) && secs == old(secs)[p.value := items[h].dueDate.value.sec])
      ensures ReadSec(p) == DateToOut(items[h].dueDate)
    {
      p := BoxSeconds(items[h].dueDate);
    }

    /** `item_set_due_date`: the argument pointer itself, not what it
        points to, becomes the seconds. */
    method ItemSetDueDate(h: Handle, arg: Option<I64>)
      requires Valid() && h in items
      modifies this
      ensures Valid() && Live() == old(Live())
      ensures items == old(items)[h := old(items)[h].WithDueDate(arg)]
      ensures labelLists == old(labelLists) && labels == old(labels) && secs == old(secs)
    {
      items := items[h := items[h].WithDueDate(arg)];
    }

    /** `item_get_completion_date` */
    method ItemGetCompletionDate(h: Handle) returns (p: Option<Handle>)
      requires Valid() && h in items
      modifies this
      ensures Valid()
      ensures items == old(items) && labelLists == old(labelLists) && labels == old(labels)
      ensures items[h].completionDate.None? ==> p.None? && secs == old(secs)
      ensures items[h].completionDate.Some? ==>
        (p.Some? && p.value !in old(Live()) && secs == old(secs)[p.value := items[h].completionDate.value.sec])
      ensures ReadSec(p) == DateToOut(items[h].completionDate)
    {
      p := BoxSeconds(items[h].completionDate);
    }

    /** `item_set_completion_date`: as the due-date setter, on the other field. */
    method ItemSetCompletionDate(h: Handle, arg: Option<I64>)
      requires Valid() && h in items
      modifies this
      ensures Valid() && Live() == old(Live())
      ensures items == old(items)[h := old(items)[h].WithCompletionDate(arg)]
      ensures labelLists == old(labelLists) && labels == old(labels) && secs == old(secs)
    {
      items := items[h := items[h].WithCompletionDate(arg)];
    }

    // -------------------------------------------------------------
    // Labels
    // -------------------------------------------------------------

    /** `item_get_labels`: a fresh box holding a clone of the label vector. */
    method ItemGetLabels(h: Handle) returns (v: Handle)
      requires Valid() && h in items
      modifies this
      ensures Valid()
      ensures v !in old(Live())
      ensures labelLists == old(labelLists)[v := old(items)[h].labels]
      ensures items == old(items) && labels == old(labels) && secs == old(secs)
    {
      v := FreshAddress();
      labelLists := labelLists[v := items[h].labels];
    }

    /** `item_labels_count`: takes an Item handle (not a vector handle) and
        returns the number of its labels, cast to `c_int`. */
    method ItemLabelsCount(h: Handle) returns (n: I32)
      requires h in items
      ensures n == CIntCast(|items[h].labels|)
      ensures |items[h].labels| < 0x8000_0000 ==> n == |items[h].labels|
    {
      n := CIntCast(|items[h].labels|);
    }

    /** `item_label_at`: a fresh box holding a clone of one label of a
        boxed label vector. Indexing out of range panics in the source,
        so the index bound is the caller's obligation. */
    method ItemLabelAt(list: Handle, index: nat) returns (b: Handle)
      requires Valid() && list in labelLists && index < |labelLists[list]|
      modifies this
      ensures Valid()
      ensures b !in old(Live())
      ensures labels == old(labels)[b := old(labelLists)[list][index]]
      ensures items == old(items) && labelLists == old(labelLists) && secs == old(secs)
    {
      b := FreshAddress();
      labels := labels[b := labelLists[list][index]];
    }
  }
}
