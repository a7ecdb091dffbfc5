/** The to-do Item record, its default value, and what each in-place
    update through `&mut Item` does to it. No handles here: this is the
    value that one heap cell of the boundary holds. */
module Items {

  datatype Option<+T> = None | Some(value: T)

  /** Rust's `i64`, the type of `Timespec.sec` and of a pointer cast with `as i64`. */
  type I64 = x: int | -0x8000_0000_0000_0000 <= x < 0x8000_0000_0000_0000

  /** Rust's `i32`, i.e. `c_int`, and the type of `Timespec.nsec`. */
  type I32 = x: int | -0x8000_0000 <= x < 0x8000_0000

  /** `time::Timespec`: seconds and nanoseconds, taken as given (no normalisation). */
  datatype Timespec = Timespec(sec: I64, nsec: I32)

  /** The record: a reserved uuid, a name, two optional dates, and the
      labels in the order the owning list gave them. `L` is the opaque Label. */
  datatype Item<L> = Item(
    uuid: string,
    name: string,
    dueDate: Option<Timespec>,
    completionDate: Option<Timespec>,
    labels: seq<L>)
  {
    /** `item.name = <decoded string>` */
    function WithName(newName: string): Item<L>
    {
      this.(name := newName)
    }

    /** `item.due_date = ...` as done by the due-date setter */
    function WithDueDate(arg: Option<I64>): Item<L>
    {
      this.(dueDate := DateFromArg(arg))
    }

    /** `item.completion_date = ...` as done by the completion-date setter */
    function WithCompletionDate(arg: Option<I64>): Item<L>
    {
      this.(completionDate := DateFromArg(arg))
    }
  }

  /** The only way an Item comes into being: every field at its default. */
  function NewItem<L>(): (it: Item<L>)
    ensures it.uuid == "" && it.name == ""
    ensures it.dueDate == None && it.completionDate == None
    ensures it.labels == []
  {
    Item("", "", None, None, [])
  }

  /** What a date setter stores for its raw argument. The argument is a
      pointer that is never dereferenced: `None` is the null pointer, and
      `Some(x)` is the non-null pointer's own value cast to `i64`. */
  function DateFromArg(arg: Option<I64>): Option<Timespec>
  {
    match arg
    case None => None
    case Some(x) => Some(Timespec(x, 0))
  }

  /** What a date getter hands back across the boundary: the null sentinel
      for an absent date, otherwise the seconds (put in a fresh box by the
      boundary). */
  function DateToOut(d: Option<Timespec>): Option<I64>
  {
    match d
    case None => None
    case Some(t) => Some(t.sec)
  }

  /** `len as c_int`: keep the low 32 bits and read them as two's complement. */
  function CIntCast(n: nat): (r: I32)
    ensures (n - r) % 0x1_0000_0000 == 0
    ensures n < 0x8000_0000 ==> r == n
  {
    var low := n % 0x1_0000_0000;
    if low < 0x8000_0000 then low else low - 0x1_0000_0000
  }

  // ---------------------------------------------------------------
  // Properties of the record updates and of the date encoding
  // ---------------------------------------------------------------

  /** Reading a date back after setting it gives the setter's argument:
      null comes back as null, a value comes back as that value. */
  lemma DateRoundTrip(arg: Option<I64>)
    ensures DateToOut(DateFromArg(arg)) == arg
  {
  }

  /** The getter's encoding loses only the nanoseconds: decoding what it
      returns restores the date exactly when the date is absent or whole. */
  lemma DateOutRecovers(d: Option<Timespec>)
    ensures DateFromArg(DateToOut(d)) == d <==> (d.None? || d.value.nsec == 0)
  {
  }

  /** Absence is not overloaded onto zero: a date at second 0 is reported
      as 0, never as the null sentinel. */
  lemma ZeroIsNotAbsent(nsec: I32)
    ensures DateToOut(Some(Timespec(0, nsec))) == Some(0)
    ensures DateToOut(Some(Timespec(0, nsec))) != DateToOut(None)
  {
  }

  /** Get-after-set for the due date, and the completion date untouched. */
  lemma DueDateGetAfterSet<L>(it: Item<L>, arg: Option<I64>)
    ensures DateToOut(it.WithDueDate(arg).dueDate) == arg
    ensures it.WithDueDate(arg).completionDate == it.completionDate
  {
  }

  /** Get-after-set for the completion date, and the due date untouched. */
  lemma CompletionDateGetAfterSet<L>(it: Item<L>, arg: Option<I64>)
    ensures DateToOut(it.WithCompletionDate(arg).completionDate) == arg
    ensures it.WithCompletionDate(arg).dueDate == it.dueDate
  {
  }

  /** Each setter changes exactly its own field. */
  lemma SettersFrame<L>(it: Item<L>, n: string, a: Option<I64>)
    ensures var it' := it.WithName(n);
      it'.name == n && it'.uuid == it.uuid && it'.dueDate == it.dueDate
      && it'.completionDate == it.completionDate && it'.labels == it.labels
    ensures var it' := it.WithDueDate(a);
      it'.name == it.name && it'.uuid == it.uuid && it'.dueDate == DateFromArg(a)
      && it'.completionDate == it.completionDate && it'.labels == it.labels
    ensures var it' := it.WithCompletionDate(a);
      it'.name == it.name && it'.uuid == it.uuid && it'.dueDate == it.dueDate
      && it'.completionDate == DateFromArg(a) && it'.labels == it.labels
  {
  }

  /** The two date setters are independent: applied in either order they
      give the same record. */
  lemma DateSettersCommute<L>(it: Item<L>, due: Option<I64>, done: Option<I64>)
    ensures it.WithDueDate(due).WithCompletionDate(done)
         == it.WithCompletionDate(done).WithDueDate(due)
  {
  }

  /** A setter overwrites: of two calls in a row, only the last one counts. */
  lemma LastSetWins<L>(it: Item<L>, a: Option<I64>, b: Option<I64>, m: string, n: string)
    ensures it.WithDueDate(a).WithDueDate(b) == it.WithDueDate(b)
    ensures it.WithCompletionDate(a).WithCompletionDate(b) == it.WithCompletionDate(b)
    ensures it.WithName(m).WithName(n) == it.WithName(n)
  {
  }
}
