/**
  Dense real vectors and the few operations on them that a two-body
  constraint needs: dot products, scaling, addition, a square
  matrix-vector product and the addition of a short vector into a segment
  of a long one. Exact `real` arithmetic stands in for double precision,
  so the algebraic laws below hold exactly.
 */
module Vectors {

  /** The zero vector of length `n`. */
  function Zeros(n: nat): (r: seq<real>)
    ensures |r| == n
    ensures forall i :: 0 <= i < n ==> r[i] == 0.0
  {
    seq(n, _ => 0.0)
  }

  /** The inner product of two vectors of equal length. */
  function Dot(u: seq<real>, v: seq<real>): (r: real)
    requires |u| == |v|
  {
    DotFrom(u, v, 0)
  }

  /** The inner product of the entries from index `i` on. */
  function DotFrom(u: seq<real>, v: seq<real>, i: nat): (r: real)
    requires |u| == |v| && i <= |u|
    decreases |u| - i
  {
    if i == |u| then 0.0 else u[i] * v[i] + DotFrom(u, v, i + 1)
  }

  /** `v * d`, entry by entry. */
  function Scale(v: seq<real>, d: real): (r: seq<real>)
    ensures |r| == |v|
    ensures forall i :: 0 <= i < |v| ==> r[i] == v[i] * d
  {
    seq(|v|, i requires 0 <= i < |v| => v[i] * d)
  }

  /** `u + v`, entry by entry. */
  function Add(u: seq<real>, v: seq<real>): (r: seq<real>)
    requires |u| == |v|
    ensures |r| == |u|
    ensures forall i :: 0 <= i < |u| ==> r[i] == u[i] + v[i]
  {
    seq(|u|, i requires 0 <= i < |u| => u[i] + v[i])
  }

  /** A matrix given by its rows, all as long as there are rows. */
  predicate Square(m: seq<seq<real>>)
  {
    forall i :: 0 <= i < |m| ==> |m[i]| == |m|
  }

  /** The product `m * v` of a square matrix and a column vector. */
  function MatVec(m: seq<seq<real>>, v: seq<real>): (r: seq<real>)
    requires Square(m) && |v| == |m|
    ensures |r| == |m|
    ensures forall i :: 0 <= i < |m| ==> r[i] == Dot(m[i], v)
  {
    seq(|m|, i requires 0 <= i < |m| => Dot(m[i], v))
  }

  /** The quadratic form `vᵀ m v`. */
  function QuadForm(m: seq<seq<real>>, v: seq<real>): (r: real)
    requires Square(m) && |v| == |m|
  {
    Dot(v, MatVec(m, v))
  }

  /** A square matrix whose quadratic form is never negative. */
  ghost predicate PositiveSemidefinite(m: seq<seq<real>>)
  {
    Square(m) && forall v: seq<real> :: |v| == |m| ==> QuadForm(m, v) >= 0.0
  }

  /** `r` with `w` added into the segment `[off, off + |w|)`; the rest is untouched. */
  function AddAt(r: seq<real>, off: nat, w: seq<real>): (s: seq<real>)
    requires off + |w| <= |r|
    ensures |s| == |r|
    ensures forall i :: 0 <= i < |r| ==>
              s[i] == if off <= i < off + |w| then r[i] + w[i - off] else r[i]
  {
    seq(|r|, i requires 0 <= i < |r| => if off <= i < off + |w| then r[i] + w[i - off] else r[i])
  }

  // ---------------------------------------------------------------------------
  // Laws of the dot product
  // ---------------------------------------------------------------------------

  /** A zero vector is orthogonal to everything. */
  lemma DotZerosLeft(v: seq<real>)
    ensures Dot(Zeros(|v|), v) == 0.0
  {
    DotFromZerosLeft(v, 0);
  }

  lemma {:induction false} DotFromZerosLeft(v: seq<real>, i: nat)
    requires i <= |v|
    ensures DotFrom(Zeros(|v|), v, i) == 0.0
    decreases |v| - i
  {
    if i < |v| {
      DotFromZerosLeft(v, i + 1);
    }
  }

  /** The dot product is additive in its right argument. */
  lemma DotAddRight(u: seq<real>, v: seq<real>, w: seq<real>)
    requires |u| == |v| == |w|
    ensures Dot(u, Add(v, w)) == Dot(u, v) + Dot(u, w)
  {
    DotFromAddRight(u, v, w, 0);
  }

  lemma {:induction false} DotFromAddRight(u: seq<real>, v: seq<real>, w: seq<real>, i: nat)
    requires |u| == |v| == |w| && i <= |u|
    ensures DotFrom(u, Add(v, w), i) == DotFrom(u, v, i) + DotFrom(u, w, i)
    decreases |u| - i
  {
    if i < |u| {
      DotFromAddRight(u, v, w, i + 1);
    }
  }

  /** The dot product is additive in its left argument. */
  lemma DotAddLeft(u: seq<real>, v: seq<real>, w: seq<real>)
    requires |u| == |v| == |w|
    ensures Dot(Add(u, v), w) == Dot(u, w) + Dot(v, w)
  {
    DotFromAddLeft(u, v, w, 0);
  }

  lemma {:induction false} DotFromAddLeft(u: seq<real>, v: seq<real>, w: seq<real>, i: nat)
    requires |u| == |v| == |w| && i <= |u|
    ensures DotFrom(Add(u, v), w, i) == DotFrom(u, w, i) + DotFrom(v, w, i)
    decreases |u| - i
  {
    if i < |u| {
      DotFromAddLeft(u, v, w, i + 1);
    }
  }

  /** Scaling the right argument scales the dot product. */
  lemma DotScaleRight(u: seq<real>, v: seq<real>, d: real)
    requires |u| == |v|
    ensures Dot(u, Scale(v, d)) == d * Dot(u, v)
  {
    DotFromScaleRight(u, v, d, 0);
  }

  lemma {:induction false} DotFromScaleRight(u: seq<real>, v: seq<real>, d: real, i: nat)
    requires |u| == |v| && i <= |u|
    ensures DotFrom(u, Scale(v, d), i) == d * DotFrom(u, v, i)
    decreases |u| - i
  {
    if i < |u| {
      DotFromScaleRight(u, v, d, i + 1);
    }
  }

  /** Scaling the left argument scales the dot product. */
  lemma DotScaleLeft(u: seq<real>, v: seq<real>, d: real)
    requires |u| == |v|
    ensures Dot(Scale(u, d), v) == d * Dot(u, v)
  {
    DotFromScaleLeft(u, v, d, 0);
  }

  lemma {:induction false} DotFromScaleLeft(u: seq<real>, v: seq<real>, d: real, i: nat)
    requires |u| == |v| && i <= |u|
    ensures DotFrom(Scale(u, d), v, i) == d * DotFrom(u, v, i)
    decreases |u| - i
  {
    if i < |u| {
      DotFromScaleLeft(u, v, d, i + 1);
    }
  }

  /** The rate after an impulse: `u · (v + w d) = u · v + d (u · w)`. */
  lemma DotAfterImpulse(u: seq<real>, v: seq<real>, w: seq<real>, d: real)
    requires |u| == |v| == |w|
    ensures Dot(u, Add(v, Scale(w, d))) == Dot(u, v) + d * Dot(u, w)
  {
    DotAddRight(u, v, Scale(w, d));
    DotScaleRight(u, w, d);
  }

  /** The tail of a dot product from `k + j` is the dot product of the suffixes from `j`. */
  lemma {:induction false} DotFromShift(u: seq<real>, v: seq<real>, k: nat, j: nat)
    requires |u| == |v| && k + j <= |u|
    ensures DotFrom(u, v, k + j) == DotFrom(u[k..], v[k..], j)
    decreases |u| - k - j
  {
    if k + j < |u| {
      DotFromShift(u, v, k, j + 1);
      assert u[k..][j] == u[k + j] && v[k..][j] == v[k + j];
    }
  }

  /** A dot product from `i` splits at `k` into the prefix part and the rest. */
  lemma {:induction false} DotFromPrefix(u: seq<real>, v: seq<real>, k: nat, i: nat)
    requires |u| == |v| && i <= k <= |u|
    ensures DotFrom(u, v, i) == DotFrom(u[..k], v[..k], i) + DotFrom(u, v, k)
    decreases k - i
  {
    if i < k {
      DotFromPrefix(u, v, k, i + 1);
      assert u[..k][i] == u[i] && v[..k][i] == v[i];
    }
  }

  /** A dot product splits at any index into the dot products of the two parts. */
  lemma DotSplit(u: seq<real>, v: seq<real>, k: nat)
    requires |u| == |v| && k <= |u|
    ensures Dot(u, v) == Dot(u[..k], v[..k]) + Dot(u[k..], v[k..])
  {
    DotFromPrefix(u, v, k, 0);
    DotFromShift(u, v, k, 0);
  }

  /** A vector that is `w` at offset `off` and zero elsewhere sees only that segment of `v`. */
  lemma DotEmbedded(off: nat, w: seq<real>, tail: nat, v: seq<real>)
    requires |v| == off + |w| + tail
    ensures Dot(Zeros(off) + w + Zeros(tail), v) == Dot(w, v[off..off + |w|])
  {
    var e := Zeros(off) + w + Zeros(tail);
    DotSplit(e, v, off);
    assert e[..off] == Zeros(off);
    DotZerosLeft(v[..off]);
    var e' := e[off..];
    var v' := v[off..];
    assert e' == w + Zeros(tail);
    DotSplit(e', v', |w|);
    assert e'[..|w|] == w;
    assert v'[..|w|] == v[off..off + |w|];
    assert e'[|w|..] == Zeros(tail);
    DotZerosLeft(v'[|w|..]);
  }

  /**
    Adding `w` into a segment of `r` changes its dot product with `v` by
    the dot product of `w` with the matching segment of `v`.
   */
  lemma DotAddAt(r: seq<real>, off: nat, w: seq<real>, v: seq<real>)
    requires off + |w| <= |r| && |r| == |v|
    ensures Dot(AddAt(r, off, w), v) == Dot(r, v) + Dot(w, v[off..off + |w|])
  {
    var e := Zeros(off) + w + Zeros(|r| - off - |w|);
    forall i | 0 <= i < |r|
      ensures AddAt(r, off, w)[i] == Add(r, e)[i]
    {
      if i < off {
        assert e[i] == 0.0;
      } else if i < off + |w| {
        assert e[i] == w[i - off];
      } else {
        assert e[i] == 0.0;
      }
    }
    assert AddAt(r, off, w) == Add(r, e);
    DotAddLeft(r, e, v);
    DotEmbedded(off, w, |r| - off - |w|, v);
  }
}
