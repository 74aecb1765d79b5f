/**
 `Sequence.adjacents()`: the sliding window of size two over a sequence,
 produced by an iterator that carries the previously read element.
 */
module AdjacentPairs {
  import opened Results

  /** The reference: pair `i` is `(s[i], s[i + 1])`. */
  function Adjacents<T>(s: seq<T>): (pairs: seq<(T, T)>)
    ensures |pairs| == if |s| == 0 then 0 else |s| - 1
    ensures forall i :: 0 <= i < |pairs| ==> pairs[i] == (s[i], s[i + 1])
  {
    if |s| == 0 then [] else seq(|s| - 1, i requires 0 <= i < |s| - 1 => (s[i], s[i + 1]))
  }

  /** Consecutive pairs overlap: the second half of pair `i` is the first
      half of pair `i + 1`. */
  lemma AdjacentsChain<T>(s: seq<T>, i: nat)
    requires i + 1 < |Adjacents(s)|
    ensures Adjacents(s)[i].1 == Adjacents(s)[i + 1].0
  {
  }

  /** `AdjacentsSequence.Iterator`: the base iterator is the part of the
      sequence not read yet; `previous` is the last element read, if any. */
  datatype Iterator<T> = Iterator(rest: seq<T>, previous: Option<T>)

  /** `makeIterator()`: reads the first element, if there is one, into
      `previous`. */
  function MakeIterator<T>(s: seq<T>): (it: Iterator<T>)
    ensures |s| == 0 ==> it.previous.None?
    ensures |s| > 0 ==> it == Iterator(s[1..], Some(s[0]))
  {
    if |s| == 0 then Iterator([], None) else Iterator(s[1..], Some(s[0]))
  }

  /** `next()`: with no previous element the base iterator is not read;
      with no further element it answers nil and keeps its state; otherwise
      the new element becomes `previous` and the pair is returned. */
  function Next<T>(it: Iterator<T>): (step: (Iterator<T>, Option<(T, T)>))
    ensures step.1.None? <==> (it.previous.None? || |it.rest| == 0)
    ensures step.1.None? ==> step.0 == it
    ensures step.1.Some? ==>
      && step.1.value == (it.previous.value, it.rest[0])
      && step.0 == Iterator(it.rest[1..], Some(it.rest[0]))
  {
    match it.previous
    case None => (it, None)
    case Some(previous) =>
      if |it.rest| == 0 then (it, None)
      else (Iterator(it.rest[1..], Some(it.rest[0])), Some((previous, it.rest[0])))
  }

  /** Once `next()` answers nil it keeps answering nil. */
  lemma NextStaysExhausted<T>(it: Iterator<T>)
    requires Next(it).1.None?
    ensures Next(Next(it).0).1.None?
  {
  }

  /** The iterator after `k` calls of `next()` on `s`. */
  function Advance<T>(s: seq<T>, k: nat): Iterator<T>
  {
    if k == 0 then MakeIterator(s) else Next(Advance(s, k - 1)).0
  }

  /** After `k` successful calls `previous` holds `s[k]` and the base
      iterator has `s[k + 1..]` left; call `k + 1` returns pair `k`. */
  lemma {:induction false} AdvanceState<T>(s: seq<T>, k: nat)
    requires k < |s|
    ensures Advance(s, k) == Iterator(s[k + 1..], Some(s[k]))
    ensures k + 1 < |s| ==> Next(Advance(s, k)).1 == Some(Adjacents(s)[k])
    ensures k + 1 == |s| ==> Next(Advance(s, k)).1.None?
  {
    if k > 0 {
      AdvanceState(s, k - 1);
    }
  }

  /** Drains the iterator as `forEach` does: the pairs it yields are exactly
      the reference pairs, in order. */
  method CollectPairs<T>(s: seq<T>) returns (pairs: seq<(T, T)>)
    ensures pairs == Adjacents(s)
  {
    var it := MakeIterator(s);
    pairs := [];
    var step := Next(it);
    ghost var all := Adjacents(s);
    while step.1.Some?
      invariant |s| == 0 ==> it.previous.None? && pairs == []
      invariant |s| > 0 ==> |pairs| < |s| && it == Iterator(s[|pairs| + 1..], Some(s[|pairs|]))
      invariant pairs == all[..|pairs|]
      invariant step == Next(it)
      decreases |it.rest|
    {
      ghost var k := |pairs|;
      assert step.1.value == all[k];
      assert all[..k + 1] == all[..k] + [all[k]];
      pairs := pairs + [step.1.value];
      it := step.0;
      assert it.rest == s[k + 2..];
      step := Next(it);
    }
    assert |pairs| == |all|;
    assert all[..|all|] == all;
  }
}
