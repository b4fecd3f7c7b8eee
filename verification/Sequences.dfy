/** The two ends of a sequence, and sequences of sequences. */
module Sequences {
  function Init<T>(p: seq<T>): seq<T>
    requires p != []
  {
    p[..|p| - 1]
  }

  function Last<T>(p: seq<T>): T
    requires p != []
  {
    p[|p| - 1]
  }

  /** All the elements of all the lists, in order. */
  function Concat<T>(lists: seq<seq<T>>): seq<T> {
    if lists == [] then [] else Concat(lists[..|lists| - 1]) + lists[|lists| - 1]
  }

  lemma {:induction false} ConcatOf<T>(a: seq<seq<T>>, b: seq<seq<T>>, x: seq<T>)
    ensures Concat(a + b) == Concat(a) + Concat(b) && Concat([x]) == x
  {
    assert [x][..0] == [];
    if b == [] {
      assert a + b == a;
    } else {
      assert (a + b)[..|a + b| - 1] == a + b[..|b| - 1];
      ConcatOf(a, b[..|b| - 1], x);
    }
  }
}
