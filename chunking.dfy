/**
 * Grouping of the flat option list into per-question groups: the group size
 * is the number of options divided by the number of questions, rounded down,
 * and the list is cut into consecutive slices of that size from the front.
 * Python slices clamp at the end of the list, so the last group may be short.
 */
module Chunking {

  /** The concatenation of a sequence of groups. */
  function Flatten<T>(groups: seq<seq<T>>): seq<T> {
    if groups == [] then [] else groups[0] + Flatten(groups[1..])
  }

  /**
   * The list cut into consecutive groups of `size` elements from the front,
   * the last group possibly shorter, for a `size` of at least one.
   */
  function Chunk<T>(xs: seq<T>, size: nat): (r: seq<seq<T>>)
    requires size >= 1
    ensures Flatten(r) == xs
    ensures forall k :: 0 <= k < |r| ==> 1 <= |r[k]| <= size
    ensures forall k :: 0 <= k < |r| - 1 ==> |r[k]| == size
    decreases |xs|
  {
    if xs == [] then []
    else if |xs| <= size then [xs]
    else [xs[..size]] + Chunk(xs[size..], size)
  }

  function Min(a: int, b: int): int {
    if a <= b then a else b
  }

  /**
   * `[xs[i:i+step] for i in range(start, len(xs), step)]`, written the way
   * Python evaluates it: one clamped slice per value of the range.
   */
  function SlicesFrom<T>(xs: seq<T>, start: nat, step: nat): seq<seq<T>>
    requires step >= 1
    decreases |xs| - start
  {
    if start >= |xs| then [] else [xs[start..Min(start + step, |xs|)]] + SlicesFrom(xs, start + step, step)
  }

  /** `Chunk` is the slice comprehension of the source. */
  lemma {:induction false} ChunkIsSliceComprehension<T>(xs: seq<T>, start: nat, step: nat)
    requires step >= 1 && start <= |xs|
    ensures Chunk(xs[start..], step) == SlicesFrom(xs, start, step)
    decreases |xs| - start
  {
    if start < |xs| {
      var ys := xs[start..];
      if |ys| <= step {
        assert ys == xs[start..Min(start + step, |xs|)];
      } else {
        assert ys[..step] == xs[start..Min(start + step, |xs|)];
        assert ys[step..] == xs[start + step..];
        ChunkIsSliceComprehension(xs, start + step, step);
      }
    }
  }

  lemma MulNearZero(d: int, t: int)
    requires d >= 1 && -d < d * t < d
    ensures t == 0
  {
  }

  /** Euclidean division is determined by quotient and remainder. */
  lemma DivUnique(m: int, d: int, q: int, r: int)
    requires d >= 1 && 0 <= r < d && m == q * d + r
    ensures m / d == q
  {
    var k, r0 := m / d, m % d;
    assert m == k * d + r0;
    assert d * (q - k) == r0 - r;
    MulNearZero(d, q - k);
  }

  /** One more group of `size` elements adds `size` to the product. */
  lemma MulSucc(m: nat, size: nat)
    ensures (m + 1) * size == m * size + size
    ensures m * size >= 0
  {
  }

  /** The groups hold between `|xs|` and `|xs| + size - 1` slots of `size` elements. */
  lemma {:induction false} ChunkCountBounds<T>(xs: seq<T>, size: nat)
    requires size >= 1
    ensures |xs| <= |Chunk(xs, size)| * size < |xs| + size
    decreases |xs|
  {
    if |xs| > size {
      var m := |Chunk(xs[size..], size)|;
      ChunkCountBounds(xs[size..], size);
      assert |Chunk(xs, size)| == m + 1;
      MulSucc(m, size);
    }
  }

  /** The number of groups is the least `n` with `n * size >= |xs|`: ceil(|xs| / size). */
  lemma ChunkCount<T>(xs: seq<T>, size: nat)
    requires size >= 1
    ensures |xs| <= |Chunk(xs, size)| * size < |xs| + size
    ensures |Chunk(xs, size)| == (|xs| + size - 1) / size
  {
    var n := |Chunk(xs, size)|;
    ChunkCountBounds(xs, size);
    DivUnique(|xs| + size - 1, size, n, |xs| + size - 1 - n * size);
  }

  /** With `q * size` elements there are exactly `q` groups, all of length `size`. */
  lemma {:induction false} ChunkExact<T>(xs: seq<T>, size: nat, q: nat)
    requires size >= 1 && |xs| == q * size
    ensures |Chunk(xs, size)| == q
    ensures forall k :: 0 <= k < q ==> |Chunk(xs, size)[k]| == size
    decreases q
  {
    if q == 0 {
      assert |xs| == 0;
    } else if q == 1 {
      assert |xs| == size;
    } else {
      MulSucc(q - 1, size);
      MulSucc(q - 2, size);
      var rest := xs[size..];
      assert |rest| == (q - 1) * size;
      ChunkExact(rest, size, q - 1);
      var c := Chunk(xs, size);
      assert c == [xs[..size]] + Chunk(rest, size);
      forall k | 0 <= k < q ensures |c[k]| == size {
        if k > 0 {
          assert c[k] == Chunk(rest, size)[k - 1];
        }
      }
    }
  }

  /** With at least `q * size` elements there are at least `q` groups. */
  lemma {:induction false} ChunkAtLeast<T>(xs: seq<T>, size: nat, q: nat)
    requires size >= 1 && q * size <= |xs|
    ensures |Chunk(xs, size)| >= q
    decreases q
  {
    if q > 1 {
      MulSucc(q - 1, size);
      MulSucc(q - 2, size);
      assert (q - 1) * size <= |xs[size..]|;
      ChunkAtLeast(xs[size..], size, q - 1);
    }
  }

  /** `len(options) // len(questions)`, the group size the quiz program uses. */
  function OptionsPerQuestion(optionCount: nat, questionCount: nat): (size: nat)
    requires questionCount >= 1
    ensures size * questionCount <= optionCount < (size + 1) * questionCount
  {
    optionCount / questionCount
  }

  /** The group size is zero exactly when there are fewer options than questions. */
  lemma OptionsPerQuestionZero(optionCount: nat, questionCount: nat)
    requires questionCount >= 1
    ensures OptionsPerQuestion(optionCount, questionCount) == 0 <==> optionCount < questionCount
  {
    var k, r := optionCount / questionCount, optionCount % questionCount;
    assert optionCount == k * questionCount + r;
    if optionCount < questionCount {
      DivUnique(optionCount, questionCount, 0, optionCount);
    }
  }

  /**
   * Grouping the options by `len(options) // len(questions)` never yields
   * fewer groups than questions: every question has a group.
   */
  lemma GroupsCoverQuestions<T>(options: seq<T>, questionCount: nat)
    requires questionCount >= 1 && OptionsPerQuestion(|options|, questionCount) >= 1
    ensures |Chunk(options, OptionsPerQuestion(|options|, questionCount))| >= questionCount
  {
    var size := OptionsPerQuestion(|options|, questionCount);
    assert questionCount * size <= |options|;
    ChunkAtLeast(options, size, questionCount);
  }

  /**
   * When every question has the same number `m` of options, the groups are
   * exactly one group of `m` options per question.
   */
  lemma GroupsWhenUniform<T>(options: seq<T>, questionCount: nat, m: nat)
    requires questionCount >= 1 && m >= 1 && |options| == questionCount * m
    ensures OptionsPerQuestion(|options|, questionCount) == m
    ensures |Chunk(options, m)| == questionCount
    ensures forall k :: 0 <= k < questionCount ==> |Chunk(options, m)[k]| == m
  {
    DivUnique(|options|, questionCount, m, 0);
    ChunkExact(options, m, questionCount);
  }

  /** Two questions with eight options: two groups of four, order kept. */
  lemma ChunkExample(options: seq<string>)
    requires |options| == 8
    ensures OptionsPerQuestion(8, 2) == 4
    ensures Chunk(options, 4) == [options[..4], options[4..]]
  {
    assert options[4..][4..] == [];
  }
}
