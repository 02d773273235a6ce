/** The batches that flushing threads hold: inFlight[t] is thread t's, empty while it is idle. */
module Batches {

  /** At most one thread is inside a flush. */
  predicate OneFlusher<T(==)>(batches: seq<seq<T>>) {
    forall i, j :: 0 <= i < j < |batches| ==> batches[i] == [] || batches[j] == []
  }

  function Concat<T>(batches: seq<seq<T>>): seq<T> {
    if batches == [] then [] else batches[0] + Concat(batches[1..])
  }

  lemma ConcatEmpty<T>(batches: seq<seq<T>>)
    requires forall i :: 0 <= i < |batches| ==> batches[i] == []
    ensures Concat(batches) == []
  {
  }

  lemma {:induction false} ConcatSingle<T>(batches: seq<seq<T>>, t: nat)
    requires t < |batches|
    requires forall i :: 0 <= i < |batches| && i != t ==> batches[i] == []
    ensures Concat(batches) == batches[t]
  {
    if t == 0 {
      ConcatEmpty(batches[1..]);
    } else {
      ConcatSingle(batches[1..], t - 1);
    }
  }

  /** While one thread is in a flush, the batches together are its batch, and nothing once it is done. */
  lemma OthersIdle<T>(batches: seq<seq<T>>, t: nat)
    requires t < |batches| && batches[t] != [] && OneFlusher(batches)
    ensures forall i :: 0 <= i < |batches| && i != t ==> batches[i] == []
    ensures Concat(batches) == batches[t] && Concat(batches[t := []]) == []
  {
    ConcatSingle(batches, t);
    ConcatEmpty(batches[t := []]);
  }
}
