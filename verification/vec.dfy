/** The four operations of Rust's growable array `Vec<T>` that the queue calls:
    `push`, `pop`, `remove` and `clear`. Only the abstract contents are
    modelled; capacity and reallocation are not observable through the queue. */
module Vec {
  import opened Outcomes

  /** `Vec::push`: the item becomes the new last element. */
  function Push<T>(s: seq<T>, x: T): (r: seq<T>)
    ensures |r| == |s| + 1
    ensures r[|s|] == x
    ensures forall j :: 0 <= j < |s| ==> r[j] == s[j]
  {
    s + [x]
  }

  /** `Vec::pop`: removes and returns the last element, or returns `None` and
      leaves an empty vector alone. It never panics. */
  function Pop<T>(s: seq<T>): (r: (seq<T>, Option<T>))
    ensures |s| == 0 ==> r.0 == s && r.1 == None
    ensures |s| > 0 ==> r.1 == Some(s[|s| - 1]) && |r.0| == |s| - 1
    ensures |s| > 0 ==> Push(r.0, s[|s| - 1]) == s
  {
    if |s| == 0 then (s, None) else (s[..|s| - 1], Some(s[|s| - 1]))
  }

  /** `Vec::remove`: takes out the element at `index` and shifts everything
      after it down by one place; panics unless `index < len`. */
  function Remove<T>(s: seq<T>, index: nat): (r: Result<(seq<T>, T)>)
    ensures r.Err? <==> index >= |s|
    ensures r.Err? ==> r.panic == RemovalIndexOutOfBounds(index, |s|)
    ensures r.Ok? ==> r.value.1 == s[index] && |r.value.0| == |s| - 1
    ensures r.Ok? ==> forall j :: 0 <= j < index ==> r.value.0[j] == s[j]
    ensures r.Ok? ==> forall j :: index <= j < |s| - 1 ==> r.value.0[j] == s[j + 1]
  {
    if index < |s| then Ok((s[..index] + s[index + 1..], s[index]))
    else Err(RemovalIndexOutOfBounds(index, |s|))
  }

  /** `Vec::clear`: drops every element. */
  function Clear<T>(s: seq<T>): (r: seq<T>)
    ensures |r| == 0
  {
    []
  }
}
