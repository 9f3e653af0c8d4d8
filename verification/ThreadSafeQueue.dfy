// The bounded queue between pipeline threads (src/etl/ETLHelpers.h, ThreadSafeQueue).
module ThreadSafeQueues {
  import opened Wrappers

  // What a blocked push waits for. A queue that is just full is let through.
  predicate HasRoom<T>(contents: seq<T>, maxSize: Option<nat>) {
    maxSize.Some? ==> |contents| <= maxSize.value
  }

  class ThreadSafeQueue<T> {
    var contents: seq<T>
    const maxSize: Option<nat>

    // A queue never holds more than one element above its maximum.
    predicate Valid()
      reads this
    {
      maxSize.Some? ==> |contents| <= maxSize.value + 1
    }

    constructor (max: Option<nat>)
      ensures Valid() && contents == [] && maxSize == max
    {
      contents, maxSize := [], max;
    }

    // Once its wait is over.
    method Push(element: T)
      requires Valid() && HasRoom(contents, maxSize)
      modifies this
      ensures Valid() && contents == old(contents) + [element]
    {
      contents := contents + [element];
    }

    // Once its wait is over.
    method Pop() returns (element: T)
      requires Valid() && contents != []
      modifies this
      ensures Valid() && old(contents) == [element] + contents && HasRoom(contents, maxSize)
    {
      element := contents[0];
      contents := contents[1..];
    }

    method TryPop() returns (element: Option<T>)
      requires Valid()
      modifies this
      ensures Valid()
      ensures element.None? ==> contents == old(contents) == []
      ensures element.Some? ==> old(contents) == [element.value] + contents && HasRoom(contents, maxSize)
    {
      if contents == [] {
        return None;
      }
      var first := Pop();
      element := Some(first);
    }
  }
}
