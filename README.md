# To-do Item record and its C boundary

A Dafny model of the Item record of the `list` crate
(`complex/cargo/list/src/items.rs`) and of the `extern "C"` entry points
through which a host application creates, updates, reads and frees Items.

- `items.dfy`, module `Items`: the record (`Item<L>`, with the Label type
  `L` left opaque), `Timespec`, the default value `NewItem`, the in-place
  updates that the setters perform (`WithName`, `WithDueDate`,
  `WithCompletionDate`), the two sides of the null-sentinel date encoding
  (`DateFromArg` for setters, `DateToOut` for getters), and the
  `as c_int` cast of the label count. Lemmas state the round trips, the
  frame of each setter and the independence of the two dates.
- `boundary.dfy`, module `Boundary`: class `Heap<L>`, the native address
  space as seen by the host. It has one map per kind of box the entry
  points hand out: Items, cloned label vectors, cloned labels, and boxed
  `i64` seconds. An address is live while one of these maps holds it, and
  `Valid()` says no address holds two boxes. Each entry point is a method.
  `Box::new` picks any address that is not live (`FreshAddress`);
  `item_destroy` removes exactly its handle.
- `scenarios.dfy`, module `Scenarios`: call sequences a host makes. Each
  one shows that the method contracts compose into the round trips the host
  sees.

Points where the code behaves differently from what its names suggest,
and how the model follows it:

- The date setters take `*const size_t` and store the pointer's own value,
  cast with `as i64`. They never read what it points to. The argument is an
  `Option<I64>`: `None` is the null pointer and `Some(x)` is a non-null
  pointer whose value casts to `x`. A real non-null pointer never casts to 0.
  The model still allows `Some(0)`, which only makes it more general.
- `item_labels_count` takes an Item handle and counts that Item's labels.
  It does not take a label-vector handle. `item_label_at` takes a
  label-vector handle.
- `item_destroy` calls `Box::from_raw` without a null check. Destroying
  null, or destroying twice, is therefore undefined, so the model requires
  a live Item handle.
- `item_set_name` stores whatever `c_char_to_string` returns for the
  argument. That function is foreign. It is the `decode` parameter, and
  whatever fallback it has on malformed input is its own business.

## Model

| member | source | states |
|---|---|---|
| `Items.NewItem` | complex/cargo/list/src/items.rs:43-51 | a new Item has empty uuid and name, both dates absent and no labels |
| `Items.CIntCast` | complex/cargo/list/src/items.rs:169 | `len as c_int` agrees with the length modulo 2^32, lies in the `i32` range, and equals the length whenever the length fits |
| `Items.DateRoundTrip` | complex/cargo/list/src/items.rs:95-120 | reading back a date that a setter stored returns the setter's argument: null as null, `x` as `x` |
| `Items.DateOutRecovers` | complex/cargo/list/src/items.rs:95-107 | the getter encoding loses only the nanoseconds: it can be undone exactly when the date is absent or has `nsec == 0` |
| `Items.ZeroIsNotAbsent` | complex/cargo/list/src/items.rs:97-105 | a date at second 0 is reported as 0 and not as the null sentinel |
| `Items.DueDateGetAfterSet` | complex/cargo/list/src/items.rs:110-120 | after the due-date setter, the due-date getter yields the argument, and the completion date is unchanged |
| `Items.CompletionDateGetAfterSet` | complex/cargo/list/src/items.rs:149-157 | after the completion-date setter, the completion-date getter yields the argument, and the due date is unchanged |
| `Items.SettersFrame` | complex/cargo/list/src/items.rs:81-157 | each setter changes only its own field; uuid and labels are never touched |
| `Items.DateSettersCommute` | complex/cargo/list/src/items.rs:110-157 | the two date setters are independent: either order gives the same Item |
| `Items.LastSetWins` | complex/cargo/list/src/items.rs:81-157 | each setter overwrites its field: of two calls in a row only the second one counts |
| `Boundary.Above` | complex/cargo/list/src/items.rs:56-57 | for any finite set of addresses in use there is an address above all of them, so allocation always has a free address |
| `Boundary.Heap.FreshAddress` | complex/cargo/list/src/items.rs:56-57 | `Box::new` returns an address that holds no box |
| `Boundary.Heap.ItemNew` | complex/cargo/list/src/items.rs:53-58 | the returned handle was not live before and now maps to `NewItem()`; every other box is unchanged |
| `Boundary.Heap.ItemDestroy` | complex/cargo/list/src/items.rs:60-63 | requires a live Item handle; exactly that handle stops being live and every other box keeps its contents |
| `Boundary.Heap.ItemGetName` | complex/cargo/list/src/items.rs:75-79 | returns the Item's name and changes nothing |
| `Boundary.Heap.ItemSetName` | complex/cargo/list/src/items.rs:81-85 | the Item's name becomes the decoded argument; nothing else in the heap changes |
| `Boundary.Heap.BoxSeconds` | complex/cargo/list/src/items.rs:97-105 | null for an absent date, otherwise a fresh box holding the seconds; what the host reads back is `DateToOut` of the date |
| `Boundary.Heap.ItemGetDueDate` | complex/cargo/list/src/items.rs:94-108 | null exactly when the due date is absent, otherwise a fresh box with its seconds; no Item changes |
| `Boundary.Heap.ItemSetDueDate` | complex/cargo/list/src/items.rs:110-120 | only the handle's due date changes, to `None` for null or to `Timespec(x, 0)` for an argument that casts to `x` |
| `Boundary.Heap.ItemGetCompletionDate` | complex/cargo/list/src/items.rs:133-147 | null exactly when the completion date is absent, otherwise a fresh box with its seconds; no Item changes |
| `Boundary.Heap.ItemSetCompletionDate` | complex/cargo/list/src/items.rs:149-157 | only the handle's completion date changes; its due date is untouched |
| `Boundary.Heap.ItemGetLabels` | complex/cargo/list/src/items.rs:159-164 | a fresh vector box holding a copy of the Item's labels; the Item is unchanged |
| `Boundary.Heap.ItemLabelsCount` | complex/cargo/list/src/items.rs:166-170 | takes an Item handle; returns the label count cast to `c_int`, which is the count itself when it fits |
| `Boundary.Heap.ItemLabelAt` | complex/cargo/list/src/items.rs:172-178 | requires the index to be below the vector's length; returns a fresh box holding that label, and the vector is unchanged |
| `Scenarios.SetThenGet` | complex/cargo/list/src/items.rs:53-157 | create, set name and due date, read back, destroy: the host sees the decoded name, exactly its due-date argument, and a null completion date |
| `Scenarios.FreshItemHasNoLabels` | complex/cargo/list/src/items.rs:43-51 | a new Item's label count is 0 and its copied label vector is empty, so `item_label_at` cannot be called on it with any index |
| `Scenarios.CopiedLabelAt` | complex/cargo/list/src/items.rs:159-178 | the label at `i` of a copied label vector is the Item's `i`-th label, and the Item is untouched |

## Left out

- `println!` and the `log` calls, including the `Drop` impl that prints on deallocation. They only produce diagnostics.
- The string conversions `string_to_c_char`, `c_char_to_string` and `to_string` of `ffi_utils` are not part of this model. Decoding is the `decode` parameter of `ItemSetName`.
- `Boundary.Heap.ItemGetName`: returns the cloned `String`; the C string and allocation that `string_to_c_char` makes of it are not modelled.
- The `Label` type lives in another module. It is the opaque type parameter `L`, copied by value.
- `Timespec` normalisation is not modelled. The setters always store `nsec == 0`.
- The `android` JNI module is platform-gated and almost entirely commented out.
- The `a_item_new`, `a_item_destroy`, `a_item_set_name` and `a_item_set_due_date` variants are left out. Apart from logging and ownership by `Box`/`&mut`, their bodies are the same as `item_new`, `item_destroy`, `item_set_name` and `item_set_due_date`. `a_item_set_name` decodes with `to_string` instead of `c_char_to_string`.
- `Boundary.Heap.ItemLabelAt`: an out-of-range index panics in `label_list[index]`; that panic is out of contract, because the method requires the index to be below the vector's length.
- Null, dangling or wrong-kind handles, and double destroy, are undefined behaviour in the source. Every entry point requires a live handle of the right kind instead.
- Freeing the label vectors, labels and `i64` boxes that the getters hand out is not done in this file, so those boxes stay live in the model.
- Running out of memory in `Box::new` is not modelled. The allocator always finds a free address.
