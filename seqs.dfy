/** Sequence helpers shared by the modules of this model. */
module Seqs {

  /** All the sequences of `xs`, one after another. */
  function Concat<T>(xs: seq<seq<T>>): (r: seq<T>)
    ensures xs == [] ==> r == []
  {
    if xs == [] then [] else Concat(xs[..|xs| - 1]) + xs[|xs| - 1]
  }

  lemma ConcatSnoc<T>(xs: seq<seq<T>>, x: seq<T>)
    ensures Concat(xs + [x]) == Concat(xs) + x
  {
    assert (xs + [x])[..|xs|] == xs;
  }

  /** `u` is the concatenation of six pieces exactly when each piece sits at its offset in `u`. */
  lemma Pieces<T>(u: seq<T>, a: seq<T>, b: seq<T>, c: seq<T>, d: seq<T>, e: seq<T>, f: seq<T>)
    requires |u| == |a| + |b| + |c| + |d| + |e| + |f|
    ensures u == a + b + c + d + e + f <==>
      var i1 := |a|; var i2 := i1 + |b|; var i3 := i2 + |c|; var i4 := i3 + |d|; var i5 := i4 + |e|;
      && u[..i1] == a && u[i1..i2] == b && u[i2..i3] == c && u[i3..i4] == d
      && u[i4..i5] == e && u[i5..] == f
  {
    var i1 := |a|; var i2 := i1 + |b|; var i3 := i2 + |c|; var i4 := i3 + |d|; var i5 := i4 + |e|;
    var w := a + b + c + d + e + f;
    assert w[..i1] == a && w[i1..i2] == b && w[i2..i3] == c && w[i3..i4] == d && w[i4..i5] == e && w[i5..] == f;
    if u[..i1] == a && u[i1..i2] == b && u[i2..i3] == c && u[i3..i4] == d && u[i4..i5] == e && u[i5..] == f {
      assert u == u[..i1] + u[i1..i2] + u[i2..i3] + u[i3..i4] + u[i4..i5] + u[i5..];
    }
  }
}
