/**
 * The synchronised shuffle: `repeat` times, two indices `a` and `b` are drawn
 * from `range(len(args[0]))` and every list swaps its elements at `a` and `b`.
 *
 * The random draws are a parameter: a sequence of index pairs, one per
 * repetition. Nothing is said about how they are distributed.
 */
module Shuffle {

  /** The number of swaps the quiz program asks for (`repeat: int = 30`). */
  const DefaultRepeat: nat := 30

  /** One repetition's pair of drawn indices. */
  datatype Draw = Draw(a: nat, b: nat)

  /** Every drawn index is below `n`: what `random.randrange(n)` delivers, or what a list of length `n` accepts. */
  predicate DrawsWithin(draws: seq<Draw>, n: nat) {
    forall k :: 0 <= k < |draws| ==> draws[k].a < n && draws[k].b < n
  }

  /** The transposition of the indices `d.a` and `d.b`. */
  function Transpose(d: Draw, i: nat): nat {
    if i == d.a then d.b else if i == d.b then d.a else i
  }

  /** `collection[a], collection[b] = collection[b], collection[a]` on a value. */
  function Swapped<T>(s: seq<T>, d: Draw): (r: seq<T>)
    requires d.a < |s| && d.b < |s|
    ensures |r| == |s|
    ensures forall j :: 0 <= j < |s| ==> r[j] == s[Transpose(d, j)]
    ensures multiset(r) == multiset(s)
    ensures d.a == d.b ==> r == s
  {
    s[d.a := s[d.b]][d.b := s[d.a]]
  }

  /** The list after the swaps of `draws`, applied first to last. */
  function ApplyDraws<T>(s: seq<T>, draws: seq<Draw>): (r: seq<T>)
    requires DrawsWithin(draws, |s|)
    ensures |r| == |s|
    decreases |draws|
  {
    if draws == [] then s
    else Swapped(ApplyDraws(s, draws[..|draws| - 1]), draws[|draws| - 1])
  }

  /** The old index whose element ends up at index `j`; it depends only on the draws. */
  function Source(draws: seq<Draw>, j: nat): nat
    decreases |draws|
  {
    if draws == [] then j else Source(draws[..|draws| - 1], Transpose(draws[|draws| - 1], j))
  }

  /** The new index of the element that was at index `i`; it depends only on the draws. */
  function Target(draws: seq<Draw>, i: nat): nat
    decreases |draws|
  {
    if draws == [] then i else Transpose(draws[|draws| - 1], Target(draws[..|draws| - 1], i))
  }

  /** After the swaps, index `j` holds what index `Source(draws, j)` held before. */
  lemma {:induction false} ApplyDrawsAt<T>(s: seq<T>, draws: seq<Draw>, j: nat)
    requires DrawsWithin(draws, |s|) && j < |s|
    ensures Source(draws, j) < |s|
    ensures ApplyDraws(s, draws)[j] == s[Source(draws, j)]
    decreases |draws|
  {
    if draws != [] {
      var init, last := draws[..|draws| - 1], draws[|draws| - 1];
      ApplyDrawsAt(s, init, Transpose(last, j));
    }
  }

  /** `Source` and `Target` are inverse bijections of the indices below `n`. */
  lemma {:induction false} SourceTargetInverse(draws: seq<Draw>, n: nat, i: nat)
    requires DrawsWithin(draws, n) && i < n
    ensures Target(draws, i) < n && Source(draws, Target(draws, i)) == i
    ensures Source(draws, i) < n && Target(draws, Source(draws, i)) == i
    decreases |draws|
  {
    if draws != [] {
      var init, last := draws[..|draws| - 1], draws[|draws| - 1];
      SourceTargetInverse(init, n, i);
      SourceTargetInverse(init, n, Transpose(last, i));
    }
  }

  /** Indices at or beyond `n` are never touched by draws below `n`. */
  lemma {:induction false} SourceBeyond(draws: seq<Draw>, n: nat, j: nat)
    requires DrawsWithin(draws, n) && n <= j
    ensures Source(draws, j) == j
    decreases |draws|
  {
    if draws != [] {
      SourceBeyond(draws[..|draws| - 1], n, j);
    }
  }

  /** Every list is a permutation of itself after the swaps. */
  lemma {:induction false} ApplyDrawsPermutes<T>(s: seq<T>, draws: seq<Draw>)
    requires DrawsWithin(draws, |s|)
    ensures multiset(ApplyDraws(s, draws)) == multiset(s)
    decreases |draws|
  {
    if draws != [] {
      ApplyDrawsPermutes(s, draws[..|draws| - 1]);
    }
  }

  /** Draws within a bound are within any larger bound. */
  lemma DrawsWithinMonotone(draws: seq<Draw>, n: nat, m: nat)
    requires DrawsWithin(draws, n) && n <= m
    ensures DrawsWithin(draws, m)
  {
  }

  /**
   * The three lists stay aligned: the triple that stood at old index `i`
   * stands at new index `Target(draws, i)` in all three, and the elements of
   * a longer list beyond the first list's length stay where they were.
   */
  lemma ShuffleKeepsAlignment<Q, A, K>(questions: seq<Q>, options: seq<A>, keys: seq<K>, draws: seq<Draw>)
    requires DrawsWithin(draws, |questions|)
    requires |questions| <= |options| && |questions| <= |keys|
    ensures DrawsWithin(draws, |options|) && DrawsWithin(draws, |keys|)
    ensures forall i :: 0 <= i < |questions| ==>
      var j := Target(draws, i);
      j < |questions|
      && ApplyDraws(questions, draws)[j] == questions[i]
      && ApplyDraws(options, draws)[j] == options[i]
      && ApplyDraws(keys, draws)[j] == keys[i]
    ensures forall j :: |questions| <= j < |options| ==> ApplyDraws(options, draws)[j] == options[j]
    ensures forall j :: |questions| <= j < |keys| ==> ApplyDraws(keys, draws)[j] == keys[j]
  {
    var n := |questions|;
    DrawsWithinMonotone(draws, n, |options|);
    DrawsWithinMonotone(draws, n, |keys|);
    forall i | 0 <= i < n
      ensures var j := Target(draws, i);
        j < n
        && ApplyDraws(questions, draws)[j] == questions[i]
        && ApplyDraws(options, draws)[j] == options[i]
        && ApplyDraws(keys, draws)[j] == keys[i]
    {
      var j := Target(draws, i);
      SourceTargetInverse(draws, n, i);
      ApplyDrawsAt(questions, draws, j);
      ApplyDrawsAt(options, draws, j);
      ApplyDrawsAt(keys, draws, j);
    }
    forall j | n <= j < |options| ensures ApplyDraws(options, draws)[j] == options[j] {
      SourceBeyond(draws, n, j);
      ApplyDrawsAt(options, draws, j);
    }
    forall j | n <= j < |keys| ensures ApplyDraws(keys, draws)[j] == keys[j] {
      SourceBeyond(draws, n, j);
      ApplyDrawsAt(keys, draws, j);
    }
  }

  /** A prefix of draws within a bound is within it too. */
  lemma DrawsWithinPrefix(draws: seq<Draw>, n: nat, r: nat)
    requires DrawsWithin(draws, n) && r <= |draws|
    ensures DrawsWithin(draws[..r], n)
  {
    forall k | 0 <= k < r ensures draws[..r][k].a < n && draws[..r][k].b < n {
      assert draws[..r][k] == draws[k];
    }
  }

  /** One more draw is one more swap. */
  lemma ApplyDrawsStep<T>(s: seq<T>, draws: seq<Draw>, r: nat)
    requires DrawsWithin(draws, |s|) && r < |draws|
    ensures DrawsWithin(draws[..r], |s|) && DrawsWithin(draws[..r + 1], |s|)
    ensures ApplyDraws(s, draws[..r + 1]) == Swapped(ApplyDraws(s, draws[..r]), draws[r])
  {
    DrawsWithinPrefix(draws, |s|, r);
    DrawsWithinPrefix(draws, |s|, r + 1);
    var longer := draws[..r + 1];
    assert longer[..r] == draws[..r];
    assert longer[r] == draws[r];
  }

  /** `collection[a], collection[b] = collection[b], collection[a]` on one list. */
  method SwapInPlace<T>(list: array<T>, d: Draw)
    requires d.a < list.Length && d.b < list.Length
    modifies list
    ensures list[..] == Swapped(old(list[..]), d)
  {
    list[d.a], list[d.b] := list[d.b], list[d.a];
  }

  /**
   * `shuffle(questions, options, keys)` in place: for each draw, the three
   * lists swap the two drawn positions, in this order.
   */
  method ShuffleInPlace<Q, A, K>(questions: array<Q>, options: array<A>, keys: array<K>, draws: seq<Draw>)
    requires DrawsWithin(draws, questions.Length)
    requires DrawsWithin(draws, options.Length) && DrawsWithin(draws, keys.Length)
    requires questions as object != options as object
    requires questions as object != keys as object
    requires options as object != keys as object
    modifies questions, options, keys
    ensures questions[..] == ApplyDraws(old(questions[..]), draws)
    ensures options[..] == ApplyDraws(old(options[..]), draws)
    ensures keys[..] == ApplyDraws(old(keys[..]), draws)
  {
    ghost var q0, o0, k0 := questions[..], options[..], keys[..];
    for r := 0 to |draws|
      invariant DrawsWithin(draws[..r], |q0|) && DrawsWithin(draws[..r], |o0|) && DrawsWithin(draws[..r], |k0|)
      invariant questions[..] == ApplyDraws(q0, draws[..r])
      invariant options[..] == ApplyDraws(o0, draws[..r])
      invariant keys[..] == ApplyDraws(k0, draws[..r])
    {
      ApplyDrawsStep(q0, draws, r);
      ApplyDrawsStep(o0, draws, r);
      ApplyDrawsStep(k0, draws, r);
      SwapInPlace(questions, draws[r]);
      SwapInPlace(options, draws[r]);
      SwapInPlace(keys, draws[r]);
    }
    assert draws[..|draws|] == draws;
  }
}
