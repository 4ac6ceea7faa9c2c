/** The ordered queue of queues/orderedqueue.go: a slice kept in ascending or
    descending order by an unusual binary search, and a lookup by id that only
    inspects a small window around the search result. */
module OrderedQueues {
  import opened Options

  datatype Ordering = Asc | Desc

  /** What the queue knows of an element: its id, its ordering value, and a payload. */
  datatype Element<+T> = Element(id: string, value: int, data: T)

  /** `a` must stand strictly in front of `b`. */
  predicate Before<T>(mode: Ordering, a: Element<T>, b: Element<T>) {
    if mode.Desc? then a.value > b.value else a.value < b.value
  }

  ghost predicate Sorted<T>(mode: Ordering, q: seq<Element<T>>) {
    forall i, j :: 0 <= i < j < |q| ==> !Before(mode, q[j], q[i])
  }

  // ---------------------------------------------------------------------------
  // Specification functions
  // ---------------------------------------------------------------------------

  /** How many leading elements `item` may not overtake. */
  function UpperBound<T>(mode: Ordering, q: seq<Element<T>>, item: Element<T>): (u: nat)
    ensures u <= |q|
    ensures forall j :: 0 <= j < u ==> !Before(mode, item, q[j])
    ensures u < |q| ==> Before(mode, item, q[u])
  {
    if q == [] || Before(mode, item, q[0]) then 0 else 1 + UpperBound(mode, q[1..], item)
  }

  function Insert<T>(mode: Ordering, q: seq<Element<T>>, item: Element<T>): seq<Element<T>> {
    var u := UpperBound(mode, q, item);
    q[..u] + [item] + q[u..]
  }

  /** The queue left by adding the elements of `history` one after the other. */
  function AddAll<T>(mode: Ordering, history: seq<Element<T>>): seq<Element<T>> {
    if history == [] then []
    else Insert(mode, AddAll(mode, history[..|history| - 1]), history[|history| - 1])
  }

  /** The index the windowed lookup of a sorted queue answers; -1 for a miss. */
  function LookupIndex<T>(mode: Ordering, q: seq<Element<T>>, probe: Element<T>): (k: int)
    ensures k == -1 || (0 <= k < |q| && q[k].id == probe.id)
  {
    var u := UpperBound(mode, q, probe);
    if u < |q| && q[u].id == probe.id then u
    else if u + 1 < |q| && q[u + 1].id == probe.id then u + 1
    else if 0 < u && q[u - 1].id == probe.id then u - 1
    else -1
  }

  function Without<T>(q: seq<Element<T>>, k: int): seq<Element<T>> {
    if 0 <= k < |q| then q[..k] + q[k + 1..] else q
  }

  function RemoveFrom<T>(mode: Ordering, q: seq<Element<T>>, probe: Element<T>): seq<Element<T>> {
    Without(q, LookupIndex(mode, q, probe))
  }

  /** The reference lookup: the first position holding `id`, or -1. */
  function ScanIndex<T>(q: seq<Element<T>>, id: string): (k: int)
    ensures -1 <= k < |q|
    ensures k >= 0 ==> q[k].id == id
    ensures forall j :: 0 <= j < (if k < 0 then |q| else k) ==> q[j].id != id
  {
    if q == [] then -1
    else if q[0].id == id then 0
    else var k := ScanIndex(q[1..], id); if k < 0 then -1 else k + 1
  }

  lemma InsertKeepsSorted<T>(mode: Ordering, q: seq<Element<T>>, item: Element<T>)
    requires Sorted(mode, q)
    ensures Sorted(mode, Insert(mode, q, item))
  {
  }

  // ---------------------------------------------------------------------------
  // The algorithms, as the source writes them
  // ---------------------------------------------------------------------------

  /** Binary search with a rounding-up midpoint that stops as soon as the
      midpoint repeats. It terminates on every queue; on a sorted one it finds
      exactly the upper bound. */
  method FindInsertingIndex<T>(queue: seq<Element<T>>, item: Element<T>, mode: Ordering) returns (idx: nat)
    ensures idx <= |queue|
    ensures Sorted(mode, queue) ==> idx == UpperBound(mode, queue, item)
  {
    var l := |queue|;
    if 0 >= l {
      return 0;
    }
    idx := l / 2;
    var originIdx := idx;
    var minIdx, maxIdx := 0, l - 1;
    while idx < l
      invariant 0 <= minIdx <= maxIdx + 1 <= l
      invariant originIdx == idx == (minIdx + maxIdx + 1) / 2
      invariant Sorted(mode, queue) ==> forall j :: 0 <= j < minIdx ==> !Before(mode, item, queue[j])
      invariant Sorted(mode, queue) ==> forall j :: maxIdx < j < l ==> Before(mode, item, queue[j])
      decreases maxIdx - minIdx + 1
    {
      var left := if mode.Desc? then item.value > queue[idx].value else item.value < queue[idx].value;
      if left {
        if idx <= 0 {
          break;
        }
        maxIdx := idx - 1;
      } else {
        minIdx := idx + 1;
      }
      idx := (minIdx + maxIdx + 1) / 2;
      if idx == originIdx {
        break;
      }
      originIdx := idx;
    }
  }

  method PushItem<T>(queue: seq<Element<T>>, item: Element<T>, mode: Ordering) returns (result: seq<Element<T>>)
    ensures |result| == |queue| + 1
    ensures multiset(result) == multiset(queue) + multiset{item}
    ensures Sorted(mode, queue) ==> result == Insert(mode, queue, item)
  {
    if |queue| <= 0 {
      return [item];
    }
    var idx := FindInsertingIndex(queue, item, mode);
    if idx >= |queue| {
      return queue + [item];
    }
    assert queue == queue[..idx] + queue[idx..];
    var tails := queue[idx..];
    result := queue[..idx] + [item] + tails;
  }

  /** Looks at the search result, the slot behind it and the slot in front of it. */
  method FindElementIndex<T>(queue: seq<Element<T>>, item: Element<T>, mode: Ordering) returns (found: int)
    ensures found == -1 || (0 <= found < |queue| && queue[found].id == item.id)
    ensures Sorted(mode, queue) ==> found == LookupIndex(mode, queue, item)
  {
    var l := |queue|;
    if 0 >= l {
      return -1;
    }
    var idx := FindInsertingIndex(queue, item, mode);
    var cursor: int := idx;
    var max, min := idx + 2, idx - 2;
    if max > l {
      max := l;
    }
    if -1 > min {
      min := -1;
    }
    while cursor < max
      invariant idx <= cursor <= max <= l
      invariant forall j :: idx <= j < cursor ==> queue[j].id != item.id
    {
      if item.id == queue[cursor].id {
        return cursor;
      }
      cursor := cursor + 1;
    }
    cursor := idx - 1;
    while cursor > min
      invariant min <= cursor < idx
      invariant forall j :: cursor < j < idx ==> queue[j].id != item.id
      decreases cursor - min
    {
      if item.id == queue[cursor].id {
        return cursor;
      }
      cursor := cursor - 1;
    }
    return -1;
  }

  class OrderedQueue<T> {
    var queue: seq<Element<T>>
    const ordering: Ordering

    constructor (mode: Ordering)
      ensures queue == [] && ordering == mode && Valid()
    {
      queue, ordering := [], mode;
    }

    ghost predicate Valid()
      reads this
    {
      Sorted(ordering, queue)
    }

    method Add(item: Element<T>)
      requires Valid()
      modifies this
      ensures Valid() && queue == Insert(ordering, old(queue), item)
    {
      InsertKeepsSorted(ordering, queue, item);
      queue := PushItem(queue, item, ordering);
    }

    method Pop() returns (item: Option<Element<T>>)
      requires Valid()
      modifies this
      ensures Valid()
      ensures old(queue) == if item.None? then [] else [item.value] + queue
      ensures item.None? ==> queue == []
    {
      if |queue| <= 0 {
        return None;
      }
      item := Some(queue[0]);
      queue := queue[1..];
    }

    method PopMany(maxResults: int) returns (items: seq<Element<T>>, n: int)
      requires Valid()
      modifies this
      ensures Valid() && n == |items| && old(queue) == items + queue
      ensures n == if maxResults <= 0 then 0 else if maxResults < |old(queue)| then maxResults else |old(queue)|
    {
      var maxLen := |queue|;
      if 0 >= maxLen || 0 >= maxResults {
        return [], 0;
      }
      if maxLen > maxResults {
        maxLen := maxResults;
      }
      items := [];
      for i := 0 to maxLen
        invariant items == queue[..i]
      {
        items := items + [queue[i]];
      }
      queue := queue[maxLen..];
      n := maxLen;
    }

    method Remove(item: Element<T>) returns (removed: bool)
      requires Valid()
      modifies this
      ensures Valid() && queue == RemoveFrom(ordering, old(queue), item)
      ensures removed <==> LookupIndex(ordering, old(queue), item) != -1
    {
      var idx := FindElementIndex(queue, item, ordering);
      if 0 > idx {
        return false;
      }
      queue := queue[..idx] + queue[idx + 1..];
      removed := true;
    }

    method Elements() returns (elements: seq<Element<T>>)
      ensures elements == queue
    {
      elements := queue;
    }

    /** As written: an index inside the queue (or at its end) cuts everything off. Past the
        end the slice `q.queue[idx:]` panics, and there is no result. */
    method CutBefore(idx: int) returns (cuts: Option<seq<Element<T>>>)
      requires Valid()
      modifies this
      ensures Valid() && (cuts.None? <==> idx > |old(queue)|)
      ensures cuts.Some? ==> cuts.value + queue == old(queue) && if idx < 0 then cuts.value == [] else queue == []
      ensures cuts.None? ==> queue == old(queue)
    {
      if 0 > idx {
        return Some([]);
      }
      if |queue| >= idx {
        cuts := Some(queue);
        queue := [];
        return;
      }
      cuts := None;
    }
  }
}
