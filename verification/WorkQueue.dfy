/** The queue between threads: what its operations do, shared with the pipeline model, and the class.
    Waiting for work is a step of the pipeline model, not a method. */
module WorkQueue {
  import opened Wrappers

  function Pushed<T>(items: seq<T>, work: T): seq<T> {
    items + [work]
  }

  /** The oldest item; nothing if the queue is empty. */
  function Head<T>(items: seq<T>): Option<T> {
    if items == [] then None else Some(items[0])
  }

  /** The queue without its oldest item. */
  function Popped<T>(items: seq<T>): seq<T> {
    if items == [] then [] else items[1..]
  }

  class WorkQueue<T> {
    var items: seq<T>
    ghost var added: seq<T>    // everything ever added
    ghost var removed: seq<T>  // everything taken out or cleared, in that order

    /** First in, first out. */
    ghost predicate Valid()
      reads this
    {
      added == removed + items
    }

    constructor ()
      ensures Valid() && items == [] && added == []
    {
      items, added, removed := [], [], [];
    }

    method Add(work: T)
      requires Valid()
      modifies this
      ensures Valid()
      ensures items == Pushed(old(items), work) && added == old(added) + [work] && removed == old(removed)
    {
      items := items + [work];
      added := added + [work];
    }

    method Get() returns (work: Option<T>)
      requires Valid()
      modifies this
      ensures Valid() && added == old(added)
      ensures work == Head(old(items)) && items == Popped(old(items))
      ensures if work.None? then removed == old(removed) else removed == old(removed) + [added[|old(removed)|]]
    {
      if items == [] {
        return None;
      }
      work := Some(items[0]);
      removed := removed + [items[0]];
      items := items[1..];
    }

    method Top() returns (work: Option<T>)
      requires Valid()
      ensures work == Head(items)
      ensures work == if items == [] then None else Some(added[|removed|])
    {
      if items == [] {
        return None;
      }
      return Some(items[0]);
    }

    method Size() returns (n: nat)
      requires Valid()
      ensures n == |added| - |removed|
    {
      n := |items|;
    }

    method IsEmpty() returns (empty: bool)
      requires Valid()
      ensures empty <==> added == removed
    {
      empty := items == [];
    }

    method Clear()
      requires Valid()
      modifies this
      ensures Valid() && items == [] && added == old(added) && removed == added
    {
      while items != []
        invariant Valid() && added == old(added)
        decreases |items|
      {
        removed := removed + [items[0]];
        items := items[1..];
      }
    }
  }
}
