/** Lists cut into pieces: `slice::chunks`. */
module Chunking {
  import opened Text

  /** `slice::chunks`: pieces of `n` elements, the last possibly shorter. */
  function Chunks<T>(xs: seq<T>, n: nat): (r: seq<seq<T>>)
    requires n >= 1
    ensures forall i | 0 <= i < |r| :: 1 <= |r[i]| <= n && (i < |r| - 1 ==> |r[i]| == n)
  {
    if xs == [] then []
    else if |xs| <= n then [xs]
    else [xs[..n]] + Chunks(xs[n..], n)
  }

  function Flatten<T>(xss: seq<seq<T>>): seq<T> {
    if xss == [] then [] else Flatten(Init(xss)) + Last(xss)
  }

  lemma {:induction false} FlattenConcat<T>(a: seq<seq<T>>, b: seq<seq<T>>)
    ensures Flatten(a + b) == Flatten(a) + Flatten(b)
    decreases |b|
  {
    if b == [] {
      assert a + b == a;
    } else {
      FlattenConcat(a, Init(b));
      assert Init(a + b) == a + Init(b);
    }
  }

  /** Chunks cut a list up without losing, repeating or reordering anything. */
  lemma {:induction false} ChunksCover<T>(xs: seq<T>, n: nat)
    requires n >= 1
    ensures Flatten(Chunks(xs, n)) == xs
    decreases |xs|
  {
    if xs == [] {
    } else if |xs| <= n {
      FlattenOne(xs);
    } else {
      ChunksCover(xs[n..], n);
      FlattenOne(xs[..n]);
      FlattenConcat([xs[..n]], Chunks(xs[n..], n));
      assert xs[..n] + xs[n..] == xs;
    }
  }

  lemma FlattenOne<T>(xs: seq<T>)
    ensures Flatten([xs]) == xs
  {
    assert Init([xs]) == [];
  }
}
