// Small facts about sequences.
module Sequences {
  // The first `limit` elements, or all of them.
  function Take<T>(list: seq<T>, limit: nat): seq<T> {
    if limit < |list| then list[..limit] else list
  }

  // They are a prefix, of `limit` elements unless there are fewer.
  lemma TakeIs<T>(list: seq<T>, limit: nat)
    ensures var first := Take(list, limit);
      first <= list && |first| <= limit && (|first| < limit ==> first == list)
  {
  }

  lemma Regroup<T>(a: seq<T>, b: seq<T>, c: seq<T>)
    ensures (a + b) + c == a + (b + c)
  {
  }
}
