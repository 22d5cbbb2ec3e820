/**
  Algebraic laws of the generic two-body constraint: what binding
  establishes, what the Schur precomputation computes, the inverse law of
  impulses, the fused rate/impulse step, and how the full-vector products
  and the sparse pasting relate to each other.
 */
module ConstraintLaws {
  import opened Options
  import opened Vectors
  import opened Variables
  import opened SparseMatrices
  import opened ConstraintTwoGeneric

  // ---------------------------------------------------------------------------
  // Binding
  // ---------------------------------------------------------------------------

  /** Binding twice to the same blocks is the same as binding once. */
  lemma SetVariablesIdempotent(c: Constraint, arena: Arena, a: Option<nat>, b: Option<nat>)
    requires a.Some? && b.Some? ==> a.value < |arena| && b.value < |arena|
    ensures SetVariables(SetVariables(c, arena, a, b), arena, a, b) == SetVariables(c, arena, a, b)
  {
  }

  /**
    Right after binding two blocks that both have degrees of freedom, the
    Jacobian is zero, so the constraint rate is zero whatever the
    velocities of the blocks are.
   */
  lemma FreshBindingRateIsZero(c: Constraint, arena: Arena, a: nat, b: nat, moved: Arena)
    requires a < |arena| && b < |arena|
    requires arena[a].ndof > 0 && arena[b].ndof > 0
    requires |arena[a].qb| == arena[a].ndof && |arena[b].qb| == arena[b].ndof
    requires SameLayout(arena, moved)
    ensures RateReady(SetVariables(c, arena, Some(a), Some(b)), moved)
    ensures ComputeCqQ(SetVariables(c, arena, Some(a), Some(b)), moved) == 0.0
  {
    var r := SetVariables(c, arena, Some(a), Some(b));
    assert r.cqA == Zeros(|moved[a].qb|);
    assert r.cqB == Zeros(|moved[b].qb|);
    DotZerosLeft(moved[a].qb);
    DotZerosLeft(moved[b].qb);
  }

  /**
    A binding that fails on a null block leaves the previous links in
    place, so the rate and the impulse propagation keep acting on the
    previously bound blocks: the validity flag does not silence them.
   */
  lemma FailedBindingKeepsActing(c: Constraint, arena: Arena, a: Option<nat>, b: Option<nat>, d: real)
    requires a.None? || b.None?
    requires RateReady(c, arena) && ImpulseReady(c, arena)
    ensures !SetVariables(c, arena, a, b).valid
    ensures RateReady(SetVariables(c, arena, a, b), arena)
    ensures ComputeCqQ(SetVariables(c, arena, a, b), arena) == ComputeCqQ(c, arena)
    ensures ImpulseReady(SetVariables(c, arena, a, b), arena)
    ensures IncrementQ(SetVariables(c, arena, a, b), arena, d) == IncrementQ(c, arena, d)
  {
  }

  /**
    A side without degrees of freedom is not resized on binding: a
    Jacobian left over from an earlier binding survives, and no longer
    matches the velocity of the newly bound block.
   */
  lemma StaleJacobianOnFixedSide()
    ensures var arena := [VarBlock(1, true, 0, [0.0], [[1.0]]), VarBlock(0, true, 1, [], [])];
            var c := SetVariables(Constraint(None, None, [], [], [], [], 0.0, 0.0, false), arena, Some(0), Some(0));
            var r := SetVariables(c, arena, Some(1), Some(1));
            r.valid && |r.cqA| == 1 && !RateReady(r, arena)
  {
  }

  /** The shape a bound constraint keeps: on sides with degrees of freedom, `Cq` and `Eq` are as long as the block. */
  predicate Shaped(c: Constraint, arena: Arena)
  {
    && Bound(c, arena)
    && (BlockA(c, arena).ndof > 0 ==> |c.cqA| == |c.eqA| == BlockA(c, arena).ndof)
    && (BlockB(c, arena).ndof > 0 ==> |c.cqB| == |c.eqB| == BlockB(c, arena).ndof)
  }

  /** Binding two blocks establishes the shape, and the Schur precomputation keeps it. */
  lemma ShapeEstablishedAndKept(c: Constraint, arena: Arena, a: nat, b: nat)
    requires a < |arena| && b < |arena|
    requires MassShaped(arena[a]) && MassShaped(arena[b])
    ensures Shaped(SetVariables(c, arena, Some(a), Some(b)), arena)
    ensures AuxiliaryReady(SetVariables(c, arena, Some(a), Some(b)), arena)
    ensures Shaped(UpdateAuxiliary(SetVariables(c, arena, Some(a), Some(b)), arena), arena)
  {
  }

  /** On blocks whose velocities have `ndof` entries and whose sides have degrees of freedom, a shaped constraint can be evaluated and can push impulses. */
  lemma ShapedIsReady(c: Constraint, arena: Arena)
    requires Shaped(c, arena)
    requires BlockA(c, arena).ndof > 0 && |BlockA(c, arena).qb| == BlockA(c, arena).ndof
    requires BlockB(c, arena).ndof > 0 && |BlockB(c, arena).qb| == BlockB(c, arena).ndof
    ensures RateReady(c, arena) && ImpulseReady(c, arena)
  {
  }

  // ---------------------------------------------------------------------------
  // Schur precomputation
  // ---------------------------------------------------------------------------

  /**
    After the precomputation, `g_i` is the sum of `Cq_side · Eq_side` over
    the engaged sides plus `cfm_i`; a side that is inactive or has no
    degrees of freedom contributes exactly zero.
   */
  lemma SchurIdentity(c: Constraint, arena: Arena)
    requires AuxiliaryReady(c, arena)
    ensures var u := UpdateAuxiliary(c, arena);
            && (Engaged(BlockA(c, arena)) ==> |u.cqA| == |u.eqA|)
            && (Engaged(BlockB(c, arena)) ==> |u.cqB| == |u.eqB|)
            && u.g == (if Engaged(BlockA(c, arena)) then Dot(u.cqA, u.eqA) else 0.0)
                      + (if Engaged(BlockB(c, arena)) then Dot(u.cqB, u.eqB) else 0.0)
                      + u.cfm
  {
  }

  /** Running the precomputation again changes nothing. */
  lemma UpdateAuxiliaryIdempotent(c: Constraint, arena: Arena)
    requires AuxiliaryReady(c, arena)
    ensures AuxiliaryReady(UpdateAuxiliary(c, arena), arena)
    ensures UpdateAuxiliary(UpdateAuxiliary(c, arena), arena) == UpdateAuxiliary(c, arena)
  {
  }

  /**
    With positive semidefinite inverse-mass matrices, the Schur term is at
    least the mixing term: `g_i - cfm_i` is an effective inverse mass and
    never negative.
   */
  lemma SchurTermAtLeastCfm(c: Constraint, arena: Arena)
    requires AuxiliaryReady(c, arena)
    requires Engaged(BlockA(c, arena)) ==> PositiveSemidefinite(BlockA(c, arena).invM)
    requires Engaged(BlockB(c, arena)) ==> PositiveSemidefinite(BlockB(c, arena).invM)
    ensures UpdateAuxiliary(c, arena).g >= c.cfm
  {
    if Engaged(BlockA(c, arena)) {
      assert QuadForm(BlockA(c, arena).invM, c.cqA) >= 0.0;
    }
    if Engaged(BlockB(c, arena)) {
      assert QuadForm(BlockB(c, arena).invM, c.cqB) >= 0.0;
    }
  }

  /**
    Two blocks with three degrees of freedom and identity inverse mass,
    Jacobians `[1, 0, 0]` and `[-1, 0, 0]`, no mixing: `g_i = 2`.
   */
  lemma TwoUnitBodiesSchurTerm()
    ensures var id := [[1.0, 0.0, 0.0], [0.0, 1.0, 0.0], [0.0, 0.0, 1.0]];
            var arena := [VarBlock(3, true, 0, [0.0, 0.0, 0.0], id), VarBlock(3, true, 3, [0.0, 0.0, 0.0], id)];
            var c := Constraint(Some(0), Some(1), [1.0, 0.0, 0.0], [-1.0, 0.0, 0.0],
                                [0.0, 0.0, 0.0], [0.0, 0.0, 0.0], 0.0, 0.0, true);
            AuxiliaryReady(c, arena) && UpdateAuxiliary(c, arena).g == 2.0
  {
    var id := [[1.0, 0.0, 0.0], [0.0, 1.0, 0.0], [0.0, 0.0, 1.0]];
    var cqA := [1.0, 0.0, 0.0];
    var cqB := [-1.0, 0.0, 0.0];
    assert MatVec(id, cqA) == cqA;
    assert MatVec(id, cqB) == cqB;
    assert Dot(cqA, cqA) == 1.0;
    assert Dot(cqB, cqB) == 1.0;
  }

  // ---------------------------------------------------------------------------
  // Impulses
  // ---------------------------------------------------------------------------

  /** Pushing the impulse `d` and then `-d` restores every velocity exactly. */
  lemma IncrementQInverse(c: Constraint, arena: Arena, d: real)
    requires ImpulseReady(c, arena)
    ensures ImpulseReady(c, IncrementQ(c, arena, d))
    ensures IncrementQ(c, IncrementQ(c, arena, d), -d) == arena
  {
    var mid := IncrementQ(c, arena, d);
    var back := IncrementQ(c, mid, -d);
    forall k | 0 <= k < |arena|
      ensures back[k] == arena[k]
    {
      assert back[k].qb == arena[k].qb;
    }
  }

  /** Impulses compose additively: pushing `d1` then `d2` is pushing `d1 + d2`. */
  lemma IncrementQAdditive(c: Constraint, arena: Arena, d1: real, d2: real)
    requires ImpulseReady(c, arena)
    ensures ImpulseReady(c, IncrementQ(c, arena, d1))
    ensures IncrementQ(c, IncrementQ(c, arena, d1), d2) == IncrementQ(c, arena, d1 + d2)
  {
    var twice := IncrementQ(c, IncrementQ(c, arena, d1), d2);
    var once := IncrementQ(c, arena, d1 + d2);
    forall k | 0 <= k < |arena|
      ensures twice[k] == once[k]
    {
      assert twice[k].qb == once[k].qb;
    }
  }

  /**
    The fused step on two distinct engaged blocks: right after the Schur
    precomputation, pushing the impulse `d` raises the constraint rate by
    exactly `d · (g_i − cfm_i)`.
   */
  lemma FusedStep(c: Constraint, arena: Arena, d: real)
    requires AuxiliaryReady(c, arena)
    requires c.va.value != c.vb.value
    requires Engaged(BlockA(c, arena)) && |BlockA(c, arena).qb| == BlockA(c, arena).ndof
    requires Engaged(BlockB(c, arena)) && |BlockB(c, arena).qb| == BlockB(c, arena).ndof
    ensures var u := UpdateAuxiliary(c, arena);
            && RateReady(u, arena) && ImpulseReady(u, arena)
            && RateReady(u, IncrementQ(u, arena, d))
            && ComputeCqQ(u, IncrementQ(u, arena, d)) == ComputeCqQ(u, arena) + d * (u.g - u.cfm)
  {
    var u := UpdateAuxiliary(c, arena);
    var next := IncrementQ(u, arena, d);
    var ia := c.va.value;
    var ib := c.vb.value;
    assert next[ia].qb == Add(arena[ia].qb, Scale(u.eqA, d));
    assert next[ib].qb == Add(arena[ib].qb, Scale(u.eqB, d));
    DotAfterImpulse(u.cqA, arena[ia].qb, u.eqA, d);
    DotAfterImpulse(u.cqB, arena[ib].qb, u.eqB, d);
    SchurIdentity(c, arena);
  }

  /**
    When both links name the same engaged block, the same impulse raises
    the rate by `d · (g_i − cfm_i)` plus the cross terms
    `d · (Cq_a·Eq_b + Cq_b·Eq_a)`: the fused-step law needs distinct blocks.
   */
  lemma FusedStepSharedBlock(c: Constraint, arena: Arena, d: real)
    requires AuxiliaryReady(c, arena)
    requires c.va.value == c.vb.value
    requires Engaged(BlockA(c, arena)) && |BlockA(c, arena).qb| == BlockA(c, arena).ndof
    ensures var u := UpdateAuxiliary(c, arena);
            && RateReady(u, arena) && ImpulseReady(u, arena)
            && RateReady(u, IncrementQ(u, arena, d))
            && ComputeCqQ(u, IncrementQ(u, arena, d))
               == ComputeCqQ(u, arena) + d * (u.g - u.cfm + Dot(u.cqA, u.eqB) + Dot(u.cqB, u.eqA))
  {
    var u := UpdateAuxiliary(c, arena);
    var next := IncrementQ(u, arena, d);
    var i := c.va.value;
    var q := arena[i].qb;
    var both := Add(Scale(u.eqA, d), Scale(u.eqB, d));
    assert next[i].qb == Add(q, both);
    SideRateAfterTwoImpulses(u.cqA, q, u.eqA, u.eqB, d);
    SideRateAfterTwoImpulses(u.cqB, q, u.eqA, u.eqB, d);
    SchurIdentity(c, arena);
    var aa, ab, ba, bb := Dot(u.cqA, u.eqA), Dot(u.cqA, u.eqB), Dot(u.cqB, u.eqA), Dot(u.cqB, u.eqB);
    assert u.g - u.cfm == aa + bb;
    assert d * aa + d * ab + d * ba + d * bb == d * (aa + bb + ab + ba);
  }

  /** One side's rate after a block receives two impulses `ea d` and `eb d`. */
  lemma SideRateAfterTwoImpulses(cq: seq<real>, q: seq<real>, ea: seq<real>, eb: seq<real>, d: real)
    requires |cq| == |q| == |ea| == |eb|
    ensures Dot(cq, Add(q, Add(Scale(ea, d), Scale(eb, d)))) == Dot(cq, q) + d * Dot(cq, ea) + d * Dot(cq, eb)
  {
    DotAddRight(cq, q, Add(Scale(ea, d), Scale(eb, d)));
    DotAddRight(cq, Scale(ea, d), Scale(eb, d));
    DotScaleRight(cq, ea, d);
    DotScaleRight(cq, eb, d);
  }

  // ---------------------------------------------------------------------------
  // Full-vector products
  // ---------------------------------------------------------------------------

  /**
    The rate equals the Jacobian product against a full vector that holds
    each active block's velocity at its offset.
   */
  lemma RateMatchesFullVectorProduct(c: Constraint, arena: Arena, v: seq<real>)
    requires RateReady(c, arena) && SegmentsFit(c, arena, |v|)
    requires BlockA(c, arena).active ==> Segment(v, BlockA(c, arena).offset, |c.cqA|) == BlockA(c, arena).qb
    requires BlockB(c, arena).active ==> Segment(v, BlockB(c, arena).offset, |c.cqB|) == BlockB(c, arena).qb
    ensures MultiplyAndAdd(c, arena, 0.0, v) == ComputeCqQ(c, arena)
  {
  }

  /** The product reads only the active sides' segments of the full vector. */
  lemma MultiplyAndAddReadsOnlySegments(c: Constraint, arena: Arena, x: real, v: seq<real>, w: seq<real>)
    requires |v| == |w| && SegmentsFit(c, arena, |v|)
    requires forall k :: 0 <= k < |v| && (Covers(BlockA(c, arena), |c.cqA|, k) || Covers(BlockB(c, arena), |c.cqB|, k)) ==> v[k] == w[k]
    ensures MultiplyAndAdd(c, arena, x, v) == MultiplyAndAdd(c, arena, x, w)
  {
    var blkA := BlockA(c, arena);
    var blkB := BlockB(c, arena);
    if blkA.active {
      forall k | 0 <= k < |c.cqA|
        ensures Segment(v, blkA.offset, |c.cqA|)[k] == Segment(w, blkA.offset, |c.cqA|)[k]
      {
        assert Covers(blkA, |c.cqA|, blkA.offset + k);
      }
      assert Segment(v, blkA.offset, |c.cqA|) == Segment(w, blkA.offset, |c.cqA|);
    }
    if blkB.active {
      forall k | 0 <= k < |c.cqB|
        ensures Segment(v, blkB.offset, |c.cqB|)[k] == Segment(w, blkB.offset, |c.cqB|)[k]
      {
        assert Covers(blkB, |c.cqB|, blkB.offset + k);
      }
      assert Segment(v, blkB.offset, |c.cqB|) == Segment(w, blkB.offset, |c.cqB|);
    }
  }

  /** The accumulator only shifts the product: `MultiplyAndAdd(x, v) = x + MultiplyAndAdd(0, v)`. */
  lemma MultiplyAndAddAccumulates(c: Constraint, arena: Arena, x: real, v: seq<real>)
    requires SegmentsFit(c, arena, |v|)
    ensures MultiplyAndAdd(c, arena, x, v) == x + MultiplyAndAdd(c, arena, 0.0, v)
  {
  }

  /**
    The two products are adjoint: for every full vector `v`,
    `(result + Cqᵀ l) · v = result · v + l (Cq v)`.
   */
  lemma TransposeProductAdjoint(c: Constraint, arena: Arena, result: seq<real>, l: real, v: seq<real>)
    requires SegmentsFit(c, arena, |result|) && |v| == |result|
    ensures Dot(MultiplyTAndAdd(c, arena, result, l), v) == Dot(result, v) + l * MultiplyAndAdd(c, arena, 0.0, v)
  {
    var blkA := BlockA(c, arena);
    var blkB := BlockB(c, arena);
    var withA := SideTransposeAdd(blkA, c.cqA, result, l);
    SideAdjoint(blkA, c.cqA, result, l, v);
    SideAdjoint(blkB, c.cqB, withA, l, v);
    Distribute(Dot(MultiplyTAndAdd(c, arena, result, l), v), Dot(withA, v), Dot(result, v),
               l, SideProduct(blkA, c.cqA, v), SideProduct(blkB, c.cqB, v));
  }

  /** Two scaled increments in a row add up to one increment scaled by the sum. */
  lemma Distribute(s: real, m: real, x: real, l: real, pa: real, pb: real)
    requires m == x + l * pa && s == m + l * pb
    ensures s == x + l * (0.0 + pa + pb)
  {
  }

  /** One side of the adjoint law: `(r + Cqᵀ l) · v = r · v + l (Cq · v)` on that side's segment. */
  lemma SideAdjoint(blk: VarBlock, cq: seq<real>, r: seq<real>, l: real, v: seq<real>)
    requires (blk.active ==> blk.offset + |cq| <= |r|) && |r| == |v|
    ensures Dot(SideTransposeAdd(blk, cq, r, l), v) == Dot(r, v) + l * SideProduct(blk, cq, v)
  {
    if blk.active {
      DotAddAt(r, blk.offset, Scale(cq, l), v);
      assert v[blk.offset..blk.offset + |cq|] == Segment(v, blk.offset, |cq|);
      DotScaleLeft(cq, Segment(v, blk.offset, |cq|), l);
    }
  }

  /** Transposed products accumulate: adding `Cqᵀ l1` then `Cqᵀ l2` adds `Cqᵀ (l1 + l2)`. */
  lemma MultiplyTAndAddAdditive(c: Constraint, arena: Arena, result: seq<real>, l1: real, l2: real)
    requires SegmentsFit(c, arena, |result|)
    ensures SegmentsFit(c, arena, |MultiplyTAndAdd(c, arena, result, l1)|)
    ensures MultiplyTAndAdd(c, arena, MultiplyTAndAdd(c, arena, result, l1), l2) == MultiplyTAndAdd(c, arena, result, l1 + l2)
  {
    var once := MultiplyTAndAdd(c, arena, result, l1);
    var twice := MultiplyTAndAdd(c, arena, once, l2);
    var sum := MultiplyTAndAdd(c, arena, result, l1 + l2);
    forall k | 0 <= k < |result|
      ensures twice[k] == sum[k]
    {
    }
  }

  // ---------------------------------------------------------------------------
  // Sparse pasting
  // ---------------------------------------------------------------------------

  /** Pasting overwrites rather than accumulates: pasting the Jacobian row twice is pasting it once. */
  lemma BuildCqIdempotent(c: Constraint, arena: Arena, m: SparseMatrix, insrow: nat)
    requires RowFits(c, arena, m, insrow)
    ensures RowFits(c, arena, BuildCq(c, arena, m, insrow), insrow)
    ensures forall i: nat, j: nat ::
              Get(BuildCq(c, arena, BuildCq(c, arena, m, insrow), insrow), i, j) == Get(BuildCq(c, arena, m, insrow), i, j)
  {
  }

  /** Pasting the transposed Jacobian column twice is pasting it once. */
  lemma BuildCqTIdempotent(c: Constraint, arena: Arena, m: SparseMatrix, inscol: nat)
    requires ColumnFits(c, arena, m, inscol)
    ensures ColumnFits(c, arena, BuildCqT(c, arena, m, inscol), inscol)
    ensures forall i: nat, j: nat ::
              Get(BuildCqT(c, arena, BuildCqT(c, arena, m, inscol), inscol), i, j) == Get(BuildCqT(c, arena, m, inscol), i, j)
  {
  }

  /**
    Into empty matrices, the transposed paste is the mirror image of the
    row paste: column `inscol` of the one holds what row `insrow` of the
    other holds, and nothing else is written.
   */
  lemma BuildCqTMirrorsBuildCq(c: Constraint, arena: Arena, n: nat, rows: nat, cols: nat, insrow: nat, inscol: nat)
    requires RowFits(c, arena, Empty(rows, n), insrow)
    requires ColumnFits(c, arena, Empty(n, cols), inscol)
    ensures forall j: nat :: Get(BuildCq(c, arena, Empty(rows, n), insrow), insrow, j)
                             == Get(BuildCqT(c, arena, Empty(n, cols), inscol), j, inscol)
    ensures forall i: nat, j: nat :: i != insrow ==> Get(BuildCq(c, arena, Empty(rows, n), insrow), i, j) == 0.0
    ensures forall i: nat, j: nat :: j != inscol ==> Get(BuildCqT(c, arena, Empty(n, cols), inscol), i, j) == 0.0
  {
  }

  /** Row `i` of a sparse matrix as a dense vector of `n` entries. */
  function RowOf(m: SparseMatrix, i: nat, n: nat): (r: seq<real>)
    ensures |r| == n
    ensures forall j :: 0 <= j < n ==> r[j] == Get(m, i, j)
  {
    seq(n, j requires 0 <= j < n => Get(m, i, j))
  }

  /**
    When the two sides' segments do not overlap, the row pasted into an
    empty matrix is the Jacobian as a dense row: its product with any full
    vector is the matrix-free product.
   */
  lemma PastedRowMatchesProduct(c: Constraint, arena: Arena, n: nat, rows: nat, insrow: nat, v: seq<real>)
    requires RowFits(c, arena, Empty(rows, n), insrow) && |v| == n
    requires forall k :: !(Covers(BlockA(c, arena), |c.cqA|, k) && Covers(BlockB(c, arena), |c.cqB|, k))
    ensures Dot(RowOf(BuildCq(c, arena, Empty(rows, n), insrow), insrow, n), v) == MultiplyAndAdd(c, arena, 0.0, v)
  {
    var blkA := BlockA(c, arena);
    var blkB := BlockB(c, arena);
    var row := RowOf(BuildCq(c, arena, Empty(rows, n), insrow), insrow, n);
    assert SegmentsFit(c, arena, n);
    var withA := if blkA.active then AddAt(Zeros(n), blkA.offset, c.cqA) else Zeros(n);
    var dense := if blkB.active then AddAt(withA, blkB.offset, c.cqB) else withA;
    forall j | 0 <= j < n
      ensures row[j] == dense[j]
    {
      assert !(Covers(blkA, |c.cqA|, j) && Covers(blkB, |c.cqB|, j));
    }
    assert row == dense;
    DotZerosLeft(v);
    if blkA.active {
      DotAddAt(Zeros(n), blkA.offset, c.cqA, v);
    }
    if blkB.active {
      DotAddAt(withA, blkB.offset, c.cqB, v);
    }
  }

  /**
    An example with both links naming the same active 1-dof block and
    `Cq_a = Cq_b = [1]`: the pasted row keeps only side `b`, while the
    matrix-free product adds both sides, so the two disagree.
   */
  lemma PastedRowDropsOverlap()
    ensures var arena := [VarBlock(1, true, 0, [0.0], [[1.0]])];
            var c := Constraint(Some(0), Some(0), [1.0], [1.0], [1.0], [1.0], 2.0, 0.0, true);
            var m := BuildCq(c, arena, Empty(1, 1), 0);
            && RowFits(c, arena, Empty(1, 1), 0)
            && Get(m, 0, 0) == 1.0
            && MultiplyAndAdd(c, arena, 0.0, [1.0]) == 2.0
  {
    var v := [1.0];
    assert Segment(v, 0, 1) == [1.0];
    assert Dot([1.0], [1.0]) == 1.0;
  }
}
