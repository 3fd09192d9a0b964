# Queues — a verified model of the `lineup_rust` queue

The crate is one Rust module, `queue`. It defines a generic `Queue<T>` that wraps a `Vec<T>` and has two constructors: `create_queue` and `create_empty`. The `QueueActions` trait adds six in-place mutators:

- `enqueue` and `enqueue_many` push at the tail.
- `dequeue` pops the tail. Despite its name it acts like a stack pop.
- `remove_first` removes index 0.
- `remove_at` removes an arbitrary index, behind a bounds guard.
- `destroy` clears the queue.

The model is functional. `Queues.Queue<T>` holds `items: seq<T>`, and each mutator returns the queue it leaves behind. Two operations can panic, `remove_first` and `remove_at`. They return `Outcomes.Result`, which is either the new queue or the `Panic` that stopped the call. A `Panic` records which of the two panic sites fired:

- `RemovalIndexOutOfBounds(index, len)` is raised inside `Vec::remove`.
- `IndexOutOfBounds(index)` is raised by the explicit `panic!` of `remove_at`.

The crate relies on four `Vec` operations from Rust's standard library: `push`, `pop`, `remove` and `clear`. Module `Vec` models their behaviour on the abstract contents. `Vec::remove` panics when `index >= len`, and that panic is modelled too.

Files:

- `outcomes.dfy`: `Option`, `Panic`, `Result`.
- `vec.dfy`: the four `Vec` operations.
- `queue.dfy`: the queue, its constructors and mutators.
- `queue_properties.dfy`: lemmas that relate several operations.
- `doctests.dfy`: the documentation examples, plus the input that shows the finding below.

## Model

| member | source | states |
|---|---|---|
| Vec.Push | src/lib.rs:35 | the pushed item becomes the new last element; the length grows by one; earlier elements keep their places |
| Vec.Pop | src/lib.rs:67 | on an empty vector it returns `None` and changes nothing (it never panics); otherwise it returns the last element, and pushing that element back restores the vector |
| Vec.Remove | src/lib.rs:81 | panics with the index and the length exactly when `index >= len`; otherwise it returns the element at `index` and shifts everything after it down by one |
| Vec.Clear | src/lib.rs:115 | the vector is left with no elements |
| Queues.CreateQueue | src/lib.rs:129-131 | the new queue holds exactly the given items, position by position |
| Queues.CreateEmpty | src/lib.rs:143-145 | the new queue has length 0 |
| Queues.Enqueue | src/lib.rs:34-36 | length grows by exactly one, the new last element is the item, and the existing prefix is unchanged |
| Queues.EnqueueMany | src/lib.rs:49-53 | pushing the items one at a time, in order, as the loop does, leaves the old contents followed by the new items |
| Queues.Dequeue | src/lib.rs:66-68 | on a non-empty queue exactly the last element goes; on an empty queue nothing changes and nothing fails |
| Queues.RemoveFirst | src/lib.rs:80-82 | panics inside `Vec::remove` exactly when the queue is empty; otherwise the queue loses its head and the rest keeps its order |
| Queues.RemoveAtAsWritten | src/lib.rs:95-101 | succeeds exactly when `idx < len`, leaving every other element in order. `idx == len` passes the guard and panics in `Vec::remove`; `idx > len` takes the explicit panic |
| Queues.RemoveAt | src/lib.rs:95-101 | with the guard `idx < len`: succeeds exactly when `idx < len`; every out-of-range index takes the explicit panic; the elements before `idx` stay put and those after it move down by one |
| Queues.Destroy | src/lib.rs:114-116 | whatever the queue held, it is left empty |
| QueueProperties.CreateQueueKeepsItems | src/lib.rs:126-131 | constructing from a sequence and reading the items back gives the same sequence |
| QueueProperties.CreateEmptyIsCreateOfNothing | src/lib.rs:140-145 | `create_empty` is the same as `create_queue` of an empty vector |
| QueueProperties.DequeueUndoesEnqueue | src/lib.rs:34-36 | `dequeue` after `enqueue(x)` gives back the original queue, because the pushed item is the one popped |
| QueueProperties.EnqueueUndoesDequeue | src/lib.rs:66-68 | on a non-empty queue, pushing back the popped tail restores the queue |
| QueueProperties.DequeueEmptyIsNoOp | src/lib.rs:66-68 | `dequeue` on an empty queue is a no-op, even when repeated |
| QueueProperties.EnqueueManyNothing | src/lib.rs:49-53 | `enqueue_many` of an empty vector is a no-op |
| QueueProperties.EnqueueManySingle | src/lib.rs:49-53 | `enqueue_many` of one item is `enqueue` of that item |
| QueueProperties.EnqueueManyThenEnqueue | src/lib.rs:49-53 | enqueuing a batch and then one more item equals enqueuing the longer batch, so `enqueue_many` is repeated `enqueue` in order |
| QueueProperties.EnqueueManySplit | src/lib.rs:49-53 | enqueuing two batches one after the other equals enqueuing their concatenation |
| QueueProperties.EnqueueManyKeepsPrefix | src/lib.rs:49-53 | the length grows by the batch size, the old items are the prefix, and the batch is the suffix |
| QueueProperties.RemoveFirstIsRemoveAtAsWrittenZero | src/lib.rs:80-101 | `remove_first` behaves identically to the as-written `remove_at(0)`, panic included |
| QueueProperties.RemoveFirstAgreesWithRemoveAt | src/lib.rs:80-101 | `remove_first` succeeds exactly when the corrected `remove_at(0)` does, and leaves the same queue |
| QueueProperties.RemoveAtAgreesWithAsWritten | src/lib.rs:95-101 | the corrected and as-written `remove_at` accept the same indices and give the same results; they differ only in which panic `idx == len` raises |
| QueueProperties.RemoveAtInverse | src/lib.rs:95-97 | putting the removed element back at its index restores the queue, so exactly one element goes and the others keep their order |
| QueueProperties.RemoveAtRemovesOneCopy | src/lib.rs:95-97 | a successful removal removes one copy of the element at the index; the multiset of the other elements is kept |
| QueueProperties.RemoveAtLastIsDequeue | src/lib.rs:66-101 | removing the last index equals `dequeue` on a non-empty queue |
| QueueProperties.RemoveAtUndoesEnqueue | src/lib.rs:34-101 | removing the index an `enqueue` just filled gives back the queue from before the `enqueue` |
| QueueProperties.DestroyIdempotent | src/lib.rs:114-116 | `destroy` yields the empty queue whatever the contents, so a second `destroy` changes nothing |
| Doctests.CreateQueueExample | src/lib.rs:126-127 | `create_queue([1,2,3,4,5])` holds `[1,2,3,4,5]` |
| Doctests.CreateEmptyExample | src/lib.rs:140-141 | `create_empty()` holds `[]` |
| Doctests.EnqueueExample | src/lib.rs:30-32 | `enqueue(6)` on `[1,2,3,4,5]` gives `[1,2,3,4,5,6]` |
| Doctests.EnqueueManyExample | src/lib.rs:45-47 | `enqueue_many([6,7,8,9,10])` on `[1,2,3,4,5]` gives `[1,...,10]` |
| Doctests.DequeueExample | src/lib.rs:62-64 | `dequeue` on `[1,2,3,4,5]` gives `[1,2,3,4]` |
| Doctests.RemoveFirstExample | src/lib.rs:76-78 | `remove_first` on `[1,2,3,4,5]` gives `[2,3,4,5]` |
| Doctests.RemoveAtExample | src/lib.rs:91-93 | `remove_at(2)` on `[1,2,3,4,5]` gives `[1,2,4,5]` under both guards |
| Doctests.DestroyExample | src/lib.rs:110-112 | `destroy` on `[1,2,3,4,5]` gives `[]` |
| Doctests.RemoveAtGuardAdmitsLength | src/lib.rs:96-99 | on `[1,2,3,4,5]`, the as-written `remove_at(5)` passes the guard and panics in `Vec::remove`; the corrected one takes the explicit panic |
| Doctests.RemoveFirstEmptyPanics | src/lib.rs:80-82 | `remove_first` on an empty queue panics in `Vec::remove` at index 0 and length 0 |

## Left out

- The `#[derive(Debug)]` on `Queue` is not modelled, because it is formatting only.
- The text of the panic messages is not modelled. A panic is a `Panic` value that records its site and its numbers.
- Process abort is not modelled. A panic is a returned value.
- `Vec` capacity, growth and reallocation are not modelled, because the queue cannot observe them.
- Rust move and ownership semantics are not modelled. Queues are immutable values, and each mutation returns a new one.
- The `usize` width of `remove_at`'s index is not modelled. The index is a `nat`, and no wrap-around is possible at the lengths involved.
- The doctest harness and the `lineup_rust::queue` import paths are left out. Only the input/output pairs of the doctests are kept, as the `Doctests` lemmas.
- Dispatch through the `QueueActions` trait is left out. Each trait method is a plain function.
- The value `Vec::pop` returns is modelled in `Vec.Pop`, but `Queues.Dequeue` drops it, as the source does.

## Findings

| source | as written | input that shows it | evidently intended | confidence | as-written member | corrected member |
|---|---|---|---|---|---|---|
| src/lib.rs:96 | the guard is `idx <= self.queue.len()`, which admits the index equal to the length | a queue `[1,2,3,4,5]` with `remove_at(5)`: the guard passes, `Vec::remove` panics with its own message, and the guard's `panic!("Index out of bounds")` is not the one raised | `idx < self.queue.len()`, so every out-of-range index takes the explicit panic | high; not executed | Queues.RemoveAtAsWritten (exhibited by Doctests.RemoveAtGuardAdmitsLength) | Queues.RemoveAt (related by QueueProperties.RemoveAtAgreesWithAsWritten) |

The defect does not change which calls succeed. Both versions panic for every `idx >= len`, and successful removals are identical. Only the panic site for `idx == len` differs. The doc comment at src/lib.rs:85 says the method "will panic if index is out of bounds", and both versions keep that promise.
