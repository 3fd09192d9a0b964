/** The input/output pairs of the crate's documentation examples, each stated
    about the model, plus the concrete input that separates the as-written
    `remove_at` guard from the corrected one. */
module Doctests {
  import opened Outcomes
  import opened Queues
  import QueueProperties

  /** `create_queue(vec![1, 2, 3, 4, 5])` holds `[1, 2, 3, 4, 5]`. */
  lemma CreateQueueExample()
    ensures CreateQueue([1, 2, 3, 4, 5]).items == [1, 2, 3, 4, 5]
  {
  }

  /** `create_empty::<i32>()` holds nothing. */
  lemma CreateEmptyExample()
    ensures CreateEmpty<int>().items == []
  {
  }

  /** Enqueuing 6 onto `[1, 2, 3, 4, 5]` gives `[1, 2, 3, 4, 5, 6]`. */
  lemma EnqueueExample()
    ensures Enqueue(CreateQueue([1, 2, 3, 4, 5]), 6).items == [1, 2, 3, 4, 5, 6]
  {
  }

  /** Enqueuing `[6, 7, 8, 9, 10]` onto `[1, 2, 3, 4, 5]` gives one to ten. */
  lemma EnqueueManyExample()
    ensures EnqueueMany(CreateQueue([1, 2, 3, 4, 5]), [6, 7, 8, 9, 10]).items
            == [1, 2, 3, 4, 5, 6, 7, 8, 9, 10]
  {
  }

  /** Dequeuing `[1, 2, 3, 4, 5]` drops the 5, not the 1. */
  lemma DequeueExample()
    ensures Dequeue(CreateQueue([1, 2, 3, 4, 5])).items == [1, 2, 3, 4]
  {
  }

  /** Removing the first item of `[1, 2, 3, 4, 5]` leaves `[2, 3, 4, 5]`. */
  lemma RemoveFirstExample()
    ensures RemoveFirst(CreateQueue([1, 2, 3, 4, 5])) == Ok(Queue([2, 3, 4, 5]))
  {
  }

  /** Removing index 2 of `[1, 2, 3, 4, 5]` leaves `[1, 2, 4, 5]`, under both
      guards. */
  lemma RemoveAtExample()
    ensures RemoveAt(CreateQueue([1, 2, 3, 4, 5]), 2) == Ok(Queue([1, 2, 4, 5]))
    ensures RemoveAtAsWritten(CreateQueue([1, 2, 3, 4, 5]), 2) == Ok(Queue([1, 2, 4, 5]))
  {
    var q := CreateQueue([1, 2, 3, 4, 5]);
    QueueProperties.RemoveAtAgreesWithAsWritten(q, 2);
    assert q.items[..2] + q.items[3..] == [1, 2, 4, 5];
  }

  /** Destroying `[1, 2, 3, 4, 5]` leaves `[]`. */
  lemma DestroyExample()
    ensures Destroy(CreateQueue([1, 2, 3, 4, 5])).items == []
  {
  }

  /** The guard `idx <= len` lets index 5 of a five-item queue through, and
      the panic then comes from `Vec::remove`, not from the guard; with the
      corrected guard the same call takes the explicit panic. */
  lemma RemoveAtGuardAdmitsLength()
    ensures RemoveAtAsWritten(CreateQueue([1, 2, 3, 4, 5]), 5) == Err(RemovalIndexOutOfBounds(5, 5))
    ensures RemoveAt(CreateQueue([1, 2, 3, 4, 5]), 5) == Err(IndexOutOfBounds(5))
  {
  }

  /** `remove_first` on an empty queue panics inside `Vec::remove`. */
  lemma RemoveFirstEmptyPanics()
    ensures RemoveFirst(CreateEmpty<int>()) == Err(RemovalIndexOutOfBounds(0, 0))
  {
  }
}
