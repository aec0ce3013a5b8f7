/** Generic helpers on sequences: the first-occurrence search that JavaScript's `find`,
    `indexOf` and construct-js's field lookup perform, concatenation of chunks, and sums. */
module Sequences {
  import opened Results

  /** The index of the first occurrence of `x` in `xs`, if any. */
  function FirstIndex<T(==)>(xs: seq<T>, x: T): (r: Option<nat>)
    ensures r.Some? ==> r.value < |xs| && xs[r.value] == x && x !in xs[..r.value]
    ensures r.None? <==> x !in xs
  {
    if |xs| == 0 then None
    else if xs[0] == x then Some(0)
    else
      assert xs == [xs[0]] + xs[1..];
      match FirstIndex(xs[1..], x)
      case None => None
      case Some(i) =>
        assert xs[..i + 1] == [xs[0]] + xs[1..][..i];
        Some(i + 1)
  }

  function Flatten<T>(xss: seq<seq<T>>): seq<T>
  {
    if |xss| == 0 then [] else xss[0] + Flatten(xss[1..])
  }

  function Sum(xs: seq<nat>): nat
  {
    if |xs| == 0 then 0 else xs[0] + Sum(xs[1..])
  }

  function Lengths<T>(xss: seq<seq<T>>): (r: seq<nat>)
    ensures |r| == |xss| && forall i :: 0 <= i < |xss| ==> r[i] == |xss[i]|
  {
    seq(|xss|, i requires 0 <= i < |xss| => |xss[i]|)
  }

  lemma {:induction false} FlattenAppend<T>(a: seq<seq<T>>, b: seq<seq<T>>)
    ensures Flatten(a + b) == Flatten(a) + Flatten(b)
    decreases |a|
  {
    if |a| == 0 {
      assert a + b == b;
    } else {
      assert (a + b)[1..] == a[1..] + b;
      FlattenAppend(a[1..], b);
    }
  }

  lemma {:induction false} SumAppend(a: seq<nat>, b: seq<nat>)
    ensures Sum(a + b) == Sum(a) + Sum(b)
    decreases |a|
  {
    if |a| == 0 {
      assert a + b == b;
    } else {
      assert (a + b)[1..] == a[1..] + b;
      SumAppend(a[1..], b);
    }
  }

  /** A concatenation is as long as its chunks together. */
  lemma {:induction false} FlattenLength<T>(xss: seq<seq<T>>)
    ensures |Flatten(xss)| == Sum(Lengths(xss))
    decreases |xss|
  {
    if |xss| > 0 {
      FlattenLength(xss[1..]);
      assert Lengths(xss[1..]) == Lengths(xss)[1..];
    }
  }

  /** Chunk k of a concatenation sits right after the chunks before it. */
  lemma FlattenChunk<T>(xss: seq<seq<T>>, k: nat)
    requires k < |xss|
    ensures |Flatten(xss[..k])| + |xss[k]| <= |Flatten(xss)|
    ensures Flatten(xss)[|Flatten(xss[..k])|..|Flatten(xss[..k])| + |xss[k]|] == xss[k]
  {
    var rest := [xss[k]] + xss[k + 1..];
    assert xss == xss[..k] + rest;
    FlattenAppend(xss[..k], rest);
    assert rest[1..] == xss[k + 1..];
    assert Flatten(rest) == xss[k] + Flatten(xss[k + 1..]);
  }
}
