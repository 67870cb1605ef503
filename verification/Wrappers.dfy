/** The two result shapes the models use where the C++ code returns a null pointer, a
    failure value, or throws, and two facts about sequences and sets. */
module Wrappers {
  datatype Option<+T> = None | Some(value: T)

  datatype Result<+T, +E> = Ok(value: T) | Err(error: E)

  lemma Regroup<T>(a: seq<T>, b: seq<T>, c: seq<T>)
    ensures (a + b) + c == a + (b + c)
  {
  }

  /** There always is another number. */
  lemma {:induction false} Fresh(keys: set<nat>) returns (n: nat)
    ensures n !in keys && forall k :: k in keys ==> k < n
    decreases |keys|
  {
    if keys == {} {
      n := 0;
    } else {
      var k :| k in keys;
      var m := Fresh(keys - {k});
      n := if m > k then m else k + 1;
      forall j | j in keys ensures j < n {
        if j != k { assert j in keys - {k}; }
      }
    }
  }
}
