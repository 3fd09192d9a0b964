/** The crate's `queue` module: a `Queue<T>` that wraps a `Vec<T>`, its two
    constructors and the six `QueueActions` mutators. Each mutator of the Rust
    code takes `&mut self`; here it returns the queue it leaves behind, and the
    two that can panic return a `Result` instead. */
module Queues {
  import opened Outcomes
  import Vec

  /** The queue; `items` is the wrapped vector, first element first. */
  datatype Queue<T> = Queue(items: seq<T>)

  /** `create_queue`: a queue holding exactly the given items, in order. */
  function CreateQueue<T>(items: seq<T>): (q: Queue<T>)
    ensures |q.items| == |items|
    ensures forall j :: 0 <= j < |items| ==> q.items[j] == items[j]
  {
    Queue(items)
  }

  /** `create_empty`: a queue with no items. */
  function CreateEmpty<T>(): (q: Queue<T>)
    ensures |q.items| == 0
  {
    Queue([])
  }

  /** `enqueue`: pushes the item at the tail. */
  function Enqueue<T>(q: Queue<T>, x: T): (r: Queue<T>)
    ensures |r.items| == |q.items| + 1
    ensures r.items[|q.items|] == x
    ensures r.items[..|q.items|] == q.items
  {
    Queue(Vec.Push(q.items, x))
  }

  /** `enqueue_many`: pushes the items one by one, in order, exactly as the
      `for` loop of the source does; the result is the old contents followed
      by the new items. */
  function EnqueueMany<T>(q: Queue<T>, items: seq<T>): (r: Queue<T>)
    ensures r.items == q.items + items
    decreases |items|
  {
    if |items| == 0 then q
    else
      assert items == [items[0]] + items[1..];
      EnqueueMany(Enqueue(q, items[0]), items[1..])
  }

  /** `dequeue`: pops the TAIL (stack behaviour, despite the name); the value
      `Vec::pop` returns is discarded, and on an empty queue nothing happens. */
  function Dequeue<T>(q: Queue<T>): (r: Queue<T>)
    ensures |q.items| == 0 ==> r == q
    ensures |q.items| > 0 ==> r.items == q.items[..|q.items| - 1]
  {
    Queue(Vec.Pop(q.items).0)
  }

  /** `remove_first`: `Vec::remove(0)`, which panics on an empty queue. */
  function RemoveFirst<T>(q: Queue<T>): (r: Result<Queue<T>>)
    ensures r.Err? <==> |q.items| == 0
    ensures r.Err? ==> r.panic == RemovalIndexOutOfBounds(0, 0)
    ensures r.Ok? ==> r.value.items == q.items[1..]
  {
    match Vec.Remove(q.items, 0)
    case Ok((rest, _)) => Ok(Queue(rest))
    case Err(p) => Err(p)
  }

  /** `remove_at` exactly as written: its guard admits `idx <= len`, so the
      index equal to the length passes the guard and then panics inside
      `Vec::remove`; only larger indices reach the explicit panic. */
  function RemoveAtAsWritten<T>(q: Queue<T>, idx: nat): (r: Result<Queue<T>>)
    ensures r.Ok? <==> idx < |q.items|
    ensures idx == |q.items| ==> r == Err(RemovalIndexOutOfBounds(idx, idx))
    ensures idx > |q.items| ==> r == Err(IndexOutOfBounds(idx))
    ensures r.Ok? ==> r.value.items == q.items[..idx] + q.items[idx + 1..]
  {
    if idx <= |q.items| then
      match Vec.Remove(q.items, idx)
      case Ok((rest, _)) => Ok(Queue(rest))
      case Err(p) => Err(p)
    else
      Err(IndexOutOfBounds(idx))
  }

  /** `remove_at` with the guard it evidently meant, `idx < len`: every index
      out of range now takes the explicit panic, and `Vec::remove` is only
      called on an index it accepts. Successful removals are unchanged. */
  function RemoveAt<T>(q: Queue<T>, idx: nat): (r: Result<Queue<T>>)
    ensures r.Ok? <==> idx < |q.items|
    ensures r.Err? ==> r.panic == IndexOutOfBounds(idx)
    ensures r.Ok? ==> |r.value.items| == |q.items| - 1
    ensures r.Ok? ==> forall j :: 0 <= j < idx ==> r.value.items[j] == q.items[j]
    ensures r.Ok? ==> forall j :: idx <= j < |q.items| - 1 ==> r.value.items[j] == q.items[j + 1]
  {
    if idx < |q.items| then
      match Vec.Remove(q.items, idx)
      case Ok((rest, _)) => Ok(Queue(rest))
      case Err(_) => assert false; Err(IndexOutOfBounds(idx))
    else
      Err(IndexOutOfBounds(idx))
  }

  /** `destroy`: `Vec::clear`, whatever the queue held. */
  function Destroy<T>(q: Queue<T>): (r: Queue<T>)
    ensures |r.items| == 0
  {
    Queue(Vec.Clear(q.items))
  }
}
