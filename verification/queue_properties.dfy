/** Properties that relate several queue operations: inverses, the fold that
    `enqueue_many` performs, the two panic routes of `remove_at`, and the
    idempotence of `destroy`. */
module QueueProperties {
  import opened Outcomes
  import opened Queues

  /** Construction keeps the given items as they are. */
  lemma CreateQueueKeepsItems<T>(xs: seq<T>)
    ensures CreateQueue(xs).items == xs
    ensures CreateQueue(xs) == Queue(xs)
  {
  }

  /** `create_empty` is `create_queue` of no items. */
  lemma CreateEmptyIsCreateOfNothing<T>()
    ensures CreateEmpty<T>() == CreateQueue([])
  {
  }

  /** `dequeue` undoes `enqueue`: the pushed item is the one popped. */
  lemma DequeueUndoesEnqueue<T>(q: Queue<T>, x: T)
    ensures Dequeue(Enqueue(q, x)) == q
  {
  }

  /** On a non-empty queue, pushing back the popped tail restores the queue. */
  lemma EnqueueUndoesDequeue<T>(q: Queue<T>)
    requires |q.items| > 0
    ensures Enqueue(Dequeue(q), q.items[|q.items| - 1]) == q
  {
    var n := |q.items|;
    assert Enqueue(Dequeue(q), q.items[n - 1]).items == q.items[..n - 1] + [q.items[n - 1]];
    assert q.items[..n - 1] + [q.items[n - 1]] == q.items;
  }

  /** `dequeue` on an empty queue changes nothing, however often it is called. */
  lemma DequeueEmptyIsNoOp<T>(q: Queue<T>)
    requires |q.items| == 0
    ensures Dequeue(q) == q
    ensures Dequeue(Dequeue(q)) == q
  {
  }

  /** `enqueue_many` of nothing leaves the queue alone. */
  lemma EnqueueManyNothing<T>(q: Queue<T>)
    ensures EnqueueMany(q, []) == q
  {
  }

  /** `enqueue_many` of one item is `enqueue` of that item. */
  lemma EnqueueManySingle<T>(q: Queue<T>, x: T)
    ensures EnqueueMany(q, [x]) == Enqueue(q, x)
  {
  }

  /** Enqueuing a batch and then one more item is enqueuing the longer batch:
      `enqueue_many` is the left fold of `enqueue` over its items. */
  lemma {:induction false} EnqueueManyThenEnqueue<T>(q: Queue<T>, ys: seq<T>, y: T)
    ensures EnqueueMany(q, ys + [y]) == Enqueue(EnqueueMany(q, ys), y)
  {
    assert EnqueueMany(q, ys + [y]).items == q.items + (ys + [y]);
    assert Enqueue(EnqueueMany(q, ys), y).items == (q.items + ys) + [y];
  }

  /** Splitting a batch in two and enqueuing the halves one after the other
      gives the same queue as enqueuing the whole batch. */
  lemma {:induction false} EnqueueManySplit<T>(q: Queue<T>, a: seq<T>, b: seq<T>)
    ensures EnqueueMany(q, a + b) == EnqueueMany(EnqueueMany(q, a), b)
  {
    assert EnqueueMany(q, a + b).items == q.items + (a + b);
    assert EnqueueMany(EnqueueMany(q, a), b).items == (q.items + a) + b;
  }

  /** `enqueue_many` pushes every item in order: the tail of the result is the
      batch and the existing items stay in front of it. */
  lemma EnqueueManyKeepsPrefix<T>(q: Queue<T>, ys: seq<T>)
    ensures |EnqueueMany(q, ys).items| == |q.items| + |ys|
    ensures EnqueueMany(q, ys).items[..|q.items|] == q.items
    ensures EnqueueMany(q, ys).items[|q.items|..] == ys
  {
  }

  /** `remove_first` behaves exactly like the as-written `remove_at(0)`: both
      call `Vec::remove(0)` and panic the same way on an empty queue. */
  lemma RemoveFirstIsRemoveAtAsWrittenZero<T>(q: Queue<T>)
    ensures RemoveFirst(q) == RemoveAtAsWritten(q, 0)
  {
  }

  /** `remove_first` succeeds exactly when the corrected `remove_at(0)` does,
      and then leaves the same queue. */
  lemma RemoveFirstAgreesWithRemoveAt<T>(q: Queue<T>)
    ensures RemoveFirst(q).Ok? <==> RemoveAt(q, 0).Ok?
    ensures RemoveFirst(q).Ok? ==> RemoveFirst(q).value == RemoveAt(q, 0).value
  {
    if |q.items| > 0 {
      var r := RemoveAt(q, 0).value.items;
      assert |r| == |q.items[1..]|;
      assert forall j :: 0 <= j < |r| ==> r[j] == q.items[1..][j];
    }
  }

  /** The corrected `remove_at` and the as-written one accept the same indices
      and leave the same queue; they differ only in WHICH panic the index
      equal to the length raises. */
  lemma RemoveAtAgreesWithAsWritten<T>(q: Queue<T>, idx: nat)
    ensures RemoveAt(q, idx).Ok? <==> RemoveAtAsWritten(q, idx).Ok?
    ensures RemoveAt(q, idx).Ok? ==> RemoveAt(q, idx) == RemoveAtAsWritten(q, idx)
    ensures idx != |q.items| ==> RemoveAt(q, idx) == RemoveAtAsWritten(q, idx)
    ensures idx == |q.items| ==>
              RemoveAt(q, idx) == Err(IndexOutOfBounds(idx)) &&
              RemoveAtAsWritten(q, idx) == Err(RemovalIndexOutOfBounds(idx, idx))
  {
    if idx < |q.items| {
      var r := RemoveAt(q, idx).value.items;
      var s := q.items[..idx] + q.items[idx + 1..];
      assert |r| == |s|;
      assert forall j :: 0 <= j < |r| ==> r[j] == s[j];
    }
  }

  /** Putting the removed element back at its index restores the queue: the
      removal drops that one element and keeps all others in their order. */
  lemma {:induction false} RemoveAtInverse<T>(q: Queue<T>, idx: nat)
    requires idx < |q.items|
    ensures RemoveAt(q, idx).Ok?
    ensures var r := RemoveAt(q, idx).value.items;
            r[..idx] + [q.items[idx]] + r[idx..] == q.items
  {
    var r := RemoveAt(q, idx).value.items;
    var s := r[..idx] + [q.items[idx]] + r[idx..];
    assert |s| == |q.items|;
    forall j | 0 <= j < |s|
      ensures s[j] == q.items[j]
    {
      if j < idx {
        assert s[j] == r[j];
      } else if j > idx {
        assert s[j] == r[j - 1];
      }
    }
  }

  /** A successful removal takes away one copy of the element at the index
      and keeps every other element. */
  lemma {:induction false} RemoveAtRemovesOneCopy<T>(q: Queue<T>, idx: nat)
    requires idx < |q.items|
    ensures RemoveAt(q, idx).Ok?
    ensures multiset(RemoveAt(q, idx).value.items) + multiset{q.items[idx]} == multiset(q.items)
  {
    var r := RemoveAt(q, idx).value.items;
    RemoveAtInverse(q, idx);
    assert r == r[..idx] + r[idx..];
    calc {
      multiset(q.items);
      multiset(r[..idx] + [q.items[idx]] + r[idx..]);
      multiset(r[..idx]) + multiset{q.items[idx]} + multiset(r[idx..]);
      multiset(r[..idx] + r[idx..]) + multiset{q.items[idx]};
    }
  }

  /** Removing the last index is the same as `dequeue`. */
  lemma RemoveAtLastIsDequeue<T>(q: Queue<T>)
    requires |q.items| > 0
    ensures RemoveAt(q, |q.items| - 1) == Ok(Dequeue(q))
  {
    var n := |q.items|;
    var r := RemoveAt(q, n - 1).value.items;
    assert |r| == |q.items[..n - 1]|;
    assert forall j :: 0 <= j < |r| ==> r[j] == q.items[..n - 1][j];
    assert r == q.items[..n - 1];
  }

  /** Removing what was just enqueued gives back the queue before it. */
  lemma RemoveAtUndoesEnqueue<T>(q: Queue<T>, x: T)
    ensures RemoveAt(Enqueue(q, x), |q.items|) == Ok(q)
  {
    var r := RemoveAt(Enqueue(q, x), |q.items|).value.items;
    assert |r| == |q.items|;
    assert forall j :: 0 <= j < |r| ==> r[j] == q.items[j];
    assert r == q.items;
  }

  /** `destroy` empties any queue, so a second call changes nothing. */
  lemma DestroyIdempotent<T>(q: Queue<T>)
    ensures Destroy(q) == CreateEmpty()
    ensures Destroy(Destroy(q)) == Destroy(q)
  {
  }
}
