/** `intersperse_chunks`: the chunk list is replicated five times in place,
    the JSON list is shuffled in place, and the shuffled concatenation of the
    two is returned. A shuffle is any permutation: which one the random
    generator picks is not modelled. */
module Interleave {

  /** `xs * n`: `n` copies of `xs`, one after the other. */
  function Repeat<T>(xs: seq<T>, n: nat): seq<T>
  {
    if n == 0 then [] else Repeat(xs, n - 1) + xs
  }

  /** A Python list, updated in place by its methods. */
  class PyList<T(==)> {
    var items: seq<T>

    constructor (xs: seq<T>)
      ensures items == xs
    {
      items := xs;
    }

    /** `xs *= n`. */
    method Replicate(n: nat)
      modifies this
      ensures items == Repeat(old(items), n)
    {
      items := Repeat(items, n);
    }

    /** `random.shuffle(xs)`: the same elements, in some order. */
    method Shuffle()
      modifies this
      ensures multiset(items) == multiset(old(items))
      ensures |items| == |old(items)|
    {
      var shuffled :| multiset(shuffled) == multiset(items);
      assert |shuffled| == |multiset(shuffled)| == |multiset(items)| == |items|;
      items := shuffled;
    }
  }

  /** `intersperse_chunks(chunks, json_data)`. The caller's chunk list ends up
      holding five copies of itself and the JSON list a permutation of
      itself; the result is a permutation of the two together. When both
      arguments are the same list, that list is replicated and then
      shuffled, and the result holds it twice. */
  method Intersperse<T(==)>(chunks: PyList<T>, jsonData: PyList<T>) returns (combined: PyList<T>)
    modifies chunks, jsonData
    ensures fresh(combined)
    ensures multiset(combined.items) == multiset(chunks.items) + multiset(jsonData.items)
    ensures chunks != jsonData ==> chunks.items == Repeat(old(chunks.items), 5)
    ensures chunks != jsonData ==> multiset(jsonData.items) == multiset(old(jsonData.items))
    ensures chunks != jsonData ==> |combined.items| == 5 * |old(chunks.items)| + |old(jsonData.items)|
    ensures chunks == jsonData ==> multiset(chunks.items) == multiset(Repeat(old(chunks.items), 5))
    ensures chunks == jsonData ==> |combined.items| == 10 * |old(chunks.items)|
  {
    chunks.Replicate(5);
    jsonData.Shuffle();
    RepeatLength(old(chunks.items), 5);
    combined := new PyList(chunks.items + jsonData.items);
    combined.Shuffle();
  }

  // ---------------------------------------------------------------------

  /** `n` copies are `n` times as long. */
  lemma {:induction false} RepeatLength<T>(xs: seq<T>, n: nat)
    ensures |Repeat(xs, n)| == n * |xs|
  {
    if n > 0 {
      RepeatLength(xs, n - 1);
    }
  }

  /** Copy `i` of `xs` in `n` copies starts at `i * |xs|` and holds `xs`. */
  lemma {:induction false} RepeatAt<T>(xs: seq<T>, n: nat, i: nat, k: nat)
    requires i < n && k < |xs|
    ensures i * |xs| + k < |Repeat(xs, n)|
    ensures Repeat(xs, n)[i * |xs| + k] == xs[k]
  {
    RepeatLength(xs, n - 1);
    assert n * |xs| == (n - 1) * |xs| + |xs|;
    if i < n - 1 {
      assert (i + 1) * |xs| <= (n - 1) * |xs| by {
        MulMono(i + 1, n - 1, |xs|);
      }
      RepeatAt(xs, n - 1, i, k);
    }
  }

  lemma MulMono(a: nat, b: nat, c: nat)
    requires a <= b
    ensures a * c <= b * c
  {
  }

  /** Every element occurs `n` times as often in `n` copies. */
  lemma {:induction false} RepeatCount<T>(xs: seq<T>, n: nat, x: T)
    ensures multiset(Repeat(xs, n))[x] == n * multiset(xs)[x]
  {
    if n > 0 {
      var c := multiset(xs)[x];
      RepeatCount(xs, n - 1, x);
      assert multiset(Repeat(xs, n)) == multiset(Repeat(xs, n - 1)) + multiset(xs);
      assert n * c == (n - 1) * c + c;
    }
  }

  /** After interspersing distinct lists, every element occurs five times as
      often as in the chunk list, plus as often as in the JSON list. */
  lemma IntersperseCount<T>(chunks: seq<T>, jsonData: seq<T>, shuffledJson: seq<T>,
                            combined: seq<T>, x: T)
    requires multiset(shuffledJson) == multiset(jsonData)
    requires multiset(combined) == multiset(Repeat(chunks, 5)) + multiset(shuffledJson)
    ensures multiset(combined)[x] == 5 * multiset(chunks)[x] + multiset(jsonData)[x]
  {
    RepeatCount(chunks, 5, x);
  }
}
