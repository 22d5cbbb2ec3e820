/**
  The generic two-body constraint: one scalar constraint row linking two
  variable blocks `a` and `b` of an arena. It holds the Jacobian row
  blocks `Cq_a`, `Cq_b`, the derived blocks `Eq_a = invM_a · Cq_aᵀ` and
  `Eq_b = invM_b · Cq_bᵀ`, the diagonal Schur term `g_i` and the
  constraint-force-mixing term `cfm_i`. Every operation is a pure function
  from the old state to the new one; an operation that changes velocities
  returns the updated arena.

  The links are read without looking at the validity flag, as the C++
  code does: a failed binding keeps the previous links, and the
  operations keep acting through them.
 */
module ConstraintTwoGeneric {
  import opened Options
  import opened Vectors
  import opened Variables
  import opened SparseMatrices

  datatype Constraint = Constraint(
    va: Option<nat>,
    vb: Option<nat>,
    cqA: seq<real>,
    cqB: seq<real>,
    eqA: seq<real>,
    eqB: seq<real>,
    g: real,
    cfm: real,
    valid: bool)

  /** Both links are set and name blocks of the arena (dereferencing them is safe). */
  predicate Bound(c: Constraint, arena: Arena)
  {
    c.va.Some? && c.vb.Some? && c.va.value < |arena| && c.vb.value < |arena|
  }

  function BlockA(c: Constraint, arena: Arena): (r: VarBlock)
    requires Bound(c, arena)
  {
    arena[c.va.value]
  }

  function BlockB(c: Constraint, arena: Arena): (r: VarBlock)
    requires Bound(c, arena)
  {
    arena[c.vb.value]
  }

  /** Position `k` of a global vector lies in the segment of an active block that is `n` entries long. */
  predicate Covers(blk: VarBlock, n: nat, k: int)
  {
    blk.active && blk.offset <= k < blk.offset + n
  }

  /**
    Resizing a dense vector: a vector already of the requested size is kept
    as it is; otherwise the new contents are unspecified, and the model
    fills them with zeros (no property relies on them).
   */
  function Resized(v: seq<real>, n: nat): (r: seq<real>)
    ensures |r| == n
    ensures |v| == n ==> r == v
  {
    if |v| == n then v else Zeros(n)
  }

  // ---------------------------------------------------------------------------
  // Binding and copying
  // ---------------------------------------------------------------------------

  /**
    Binds the constraint to blocks `a` and `b` (`None` is a null pointer).
    With a null argument only the validity flag changes. Otherwise both
    links are recorded and each side with degrees of freedom gets a zero
    Jacobian and a derived block of the block's size; a side without
    degrees of freedom keeps whatever Jacobian it had.
   */
  function SetVariables(c: Constraint, arena: Arena, a: Option<nat>, b: Option<nat>): (r: Constraint)
    requires a.Some? && b.Some? ==> a.value < |arena| && b.value < |arena|
    ensures a.None? || b.None? ==> !r.valid && r.(valid := c.valid) == c
    ensures a.Some? && b.Some? ==>
              && r.valid && r.va == a && r.vb == b && Bound(r, arena)
              && r.g == c.g && r.cfm == c.cfm
    ensures a.Some? && b.Some? && arena[a.value].ndof > 0 ==>
              && |r.cqA| == |r.eqA| == arena[a.value].ndof
              && forall k :: 0 <= k < |r.cqA| ==> r.cqA[k] == 0.0
    ensures a.Some? && b.Some? && arena[a.value].ndof == 0 ==> r.cqA == c.cqA && r.eqA == c.eqA
    ensures a.Some? && b.Some? && arena[b.value].ndof > 0 ==>
              && |r.cqB| == |r.eqB| == arena[b.value].ndof
              && forall k :: 0 <= k < |r.cqB| ==> r.cqB[k] == 0.0
    ensures a.Some? && b.Some? && arena[b.value].ndof == 0 ==> r.cqB == c.cqB && r.eqB == c.eqB
  {
    if a.None? || b.None? then
      c.(valid := false)
    else
      var linked := c.(valid := true, va := a, vb := b);
      var na := arena[a.value].ndof;
      var nb := arena[b.value].ndof;
      var withA := if na > 0 then linked.(cqA := Zeros(na), eqA := Resized(linked.eqA, na)) else linked;
      if nb > 0 then withA.(cqB := Zeros(nb), eqB := Resized(withA.eqB, nb)) else withA
  }

  /**
    Copy construction and assignment: the target takes every field of the
    source, so both constraints then address the same blocks.
   */
  function Copy(other: Constraint): (r: Constraint)
    ensures r == other
  {
    Constraint(other.va, other.vb, other.cqA, other.cqB, other.eqA, other.eqB, other.g, other.cfm, other.valid)
  }

  // ---------------------------------------------------------------------------
  // Schur precomputation
  // ---------------------------------------------------------------------------

  /** The Schur contribution `Cq · invM · Cqᵀ` of one side; zero unless the side is engaged. */
  function SchurSide(blk: VarBlock, cq: seq<real>): (r: real)
    requires Engaged(blk) ==> MassShaped(blk) && |cq| == blk.ndof
  {
    if Engaged(blk) then QuadForm(blk.invM, cq) else 0.0
  }

  /**
    What the Schur precomputation needs: live links and, on engaged sides,
    a Jacobian that fits the mass matrix and an `Eq` buffer of the block's
    size, the one binding allocated, into which `Compute_invMb_v` writes.
   */
  predicate AuxiliaryReady(c: Constraint, arena: Arena)
  {
    && Bound(c, arena)
    && (Engaged(BlockA(c, arena)) ==>
          MassShaped(BlockA(c, arena)) && |c.cqA| == |c.eqA| == BlockA(c, arena).ndof)
    && (Engaged(BlockB(c, arena)) ==>
          MassShaped(BlockB(c, arena)) && |c.cqB| == |c.eqB| == BlockB(c, arena).ndof)
  }

  /**
    Recomputes `Eq = invM · Cqᵀ` on each engaged side, then
    `g_i = Cq_a·Eq_a + Cq_b·Eq_b + cfm_i` over the engaged sides.
   */
  function UpdateAuxiliary(c: Constraint, arena: Arena): (r: Constraint)
    requires AuxiliaryReady(c, arena)
    ensures r.(eqA := c.eqA, eqB := c.eqB, g := c.g) == c
    ensures Engaged(BlockA(c, arena)) ==> r.eqA == MatVec(BlockA(c, arena).invM, c.cqA)
    ensures !Engaged(BlockA(c, arena)) ==> r.eqA == c.eqA
    ensures Engaged(BlockB(c, arena)) ==> r.eqB == MatVec(BlockB(c, arena).invM, c.cqB)
    ensures !Engaged(BlockB(c, arena)) ==> r.eqB == c.eqB
    ensures r.g == SchurSide(BlockA(c, arena), c.cqA) + SchurSide(BlockB(c, arena), c.cqB) + c.cfm
  {
    var blkA := BlockA(c, arena);
    var blkB := BlockB(c, arena);
    var eqA := if Engaged(blkA) then ComputeInvMbV(blkA, c.cqA) else c.eqA;
    var eqB := if Engaged(blkB) then ComputeInvMbV(blkB, c.cqB) else c.eqB;
    var gA := if Engaged(blkA) then Dot(c.cqA, eqA) else 0.0;
    var gB := if Engaged(blkB) then Dot(c.cqB, eqB) else 0.0;
    var g := if c.cfm != 0.0 then gA + gB + c.cfm else gA + gB;
    c.(eqA := eqA, eqB := eqB, g := g)
  }

  // ---------------------------------------------------------------------------
  // Constraint rate and impulse propagation
  // ---------------------------------------------------------------------------

  /** On every active side the Jacobian is as long as the block's velocity. */
  predicate RateReady(c: Constraint, arena: Arena)
  {
    && Bound(c, arena)
    && (BlockA(c, arena).active ==> |c.cqA| == |BlockA(c, arena).qb|)
    && (BlockB(c, arena).active ==> |c.cqB| == |BlockB(c, arena).qb|)
  }

  /** The constraint rate `Cq_a·q_a + Cq_b·q_b` over the active sides. */
  function ComputeCqQ(c: Constraint, arena: Arena): (r: real)
    requires RateReady(c, arena)
    ensures !BlockA(c, arena).active && !BlockB(c, arena).active ==> r == 0.0
  {
    var ra := if BlockA(c, arena).active then Dot(c.cqA, BlockA(c, arena).qb) else 0.0;
    var rb := if BlockB(c, arena).active then Dot(c.cqB, BlockB(c, arena).qb) else 0.0;
    ra + rb
  }

  /** On every active side the derived block is as long as the block's velocity. */
  predicate ImpulseReady(c: Constraint, arena: Arena)
  {
    && Bound(c, arena)
    && (BlockA(c, arena).active ==> |c.eqA| == |BlockA(c, arena).qb|)
    && (BlockB(c, arena).active ==> |c.eqB| == |BlockB(c, arena).qb|)
  }

  /**
    Propagates a multiplier change `d`: the velocity of each active side
    grows by `Eq_side · d`. When both links name the same block, it
    receives both increments. Nothing else in the arena changes.
   */
  function IncrementQ(c: Constraint, arena: Arena, d: real): (r: Arena)
    requires ImpulseReady(c, arena)
    ensures SameLayout(arena, r)
    ensures forall k :: 0 <= k < |arena| && k != c.va.value && k != c.vb.value ==> r[k] == arena[k]
    ensures forall k, j :: 0 <= k < |arena| && 0 <= j < |arena[k].qb| ==>
              r[k].qb[j] == arena[k].qb[j]
                            + (if k == c.va.value && arena[k].active then c.eqA[j] * d else 0.0)
                            + (if k == c.vb.value && arena[k].active then c.eqB[j] * d else 0.0)
  {
    var ia := c.va.value;
    var ib := c.vb.value;
    var afterA := if arena[ia].active then arena[ia := arena[ia].(qb := Add(arena[ia].qb, Scale(c.eqA, d)))] else arena;
    if afterA[ib].active then afterA[ib := afterA[ib].(qb := Add(afterA[ib].qb, Scale(c.eqB, d)))] else afterA
  }

  // ---------------------------------------------------------------------------
  // Products against full-length vectors
  // ---------------------------------------------------------------------------

  /** Each active side's segment `[offset, offset + |Cq|)` fits in a vector of length `n`. */
  predicate SegmentsFit(c: Constraint, arena: Arena, n: nat)
  {
    && Bound(c, arena)
    && (BlockA(c, arena).active ==> BlockA(c, arena).offset + |c.cqA| <= n)
    && (BlockB(c, arena).active ==> BlockB(c, arena).offset + |c.cqB| <= n)
  }

  /** The entries `[off, off + n)` of `v`. */
  function Segment(v: seq<real>, off: nat, n: nat): (s: seq<real>)
    requires off + n <= |v|
    ensures |s| == n
  {
    v[off..off + n]
  }

  /** One side's share of `Cq · v`: its Jacobian against its segment of `v`, or zero if inactive. */
  function SideProduct(blk: VarBlock, cq: seq<real>, v: seq<real>): (r: real)
    requires blk.active ==> blk.offset + |cq| <= |v|
  {
    if blk.active then Dot(cq, Segment(v, blk.offset, |cq|)) else 0.0
  }

  /** One side's share of `Cqᵀ · l`: `Cq l` added into its segment of `result`, if active. */
  function SideTransposeAdd(blk: VarBlock, cq: seq<real>, result: seq<real>, l: real): (r: seq<real>)
    requires blk.active ==> blk.offset + |cq| <= |result|
    ensures |r| == |result|
  {
    if blk.active then AddAt(result, blk.offset, Scale(cq, l)) else result
  }

  /** `result + Cq · v`, reading each active side's segment of the full vector `v`. */
  function MultiplyAndAdd(c: Constraint, arena: Arena, result: real, v: seq<real>): (r: real)
    requires SegmentsFit(c, arena, |v|)
    ensures !BlockA(c, arena).active && !BlockB(c, arena).active ==> r == result
  {
    result + SideProduct(BlockA(c, arena), c.cqA, v) + SideProduct(BlockB(c, arena), c.cqB, v)
  }

  /** `result + Cqᵀ · l`, adding into each active side's segment of the full vector `result`. */
  function MultiplyTAndAdd(c: Constraint, arena: Arena, result: seq<real>, l: real): (r: seq<real>)
    requires SegmentsFit(c, arena, |result|)
    ensures |r| == |result|
    ensures forall k :: 0 <= k < |result| ==>
              r[k] == result[k]
                      + (if Covers(BlockA(c, arena), |c.cqA|, k) then c.cqA[k - BlockA(c, arena).offset] * l else 0.0)
                      + (if Covers(BlockB(c, arena), |c.cqB|, k) then c.cqB[k - BlockB(c, arena).offset] * l else 0.0)
  {
    SideTransposeAdd(BlockB(c, arena), c.cqB, SideTransposeAdd(BlockA(c, arena), c.cqA, result, l), l)
  }

  // ---------------------------------------------------------------------------
  // Sparse pasting of the Jacobian
  // ---------------------------------------------------------------------------

  /** Row `insrow` exists and each active side's columns fit in `m`. */
  predicate RowFits(c: Constraint, arena: Arena, m: SparseMatrix, insrow: nat)
  {
    && Bound(c, arena)
    && (BlockA(c, arena).active ==> insrow < m.rows && BlockA(c, arena).offset + |c.cqA| <= m.cols)
    && (BlockB(c, arena).active ==> insrow < m.rows && BlockB(c, arena).offset + |c.cqB| <= m.cols)
  }

  /**
    Pastes the Jacobian as row `insrow` of `m`, each active side at its
    block's offset; side `b` is pasted last, so it wins where the two
    segments overlap.
   */
  function BuildCq(c: Constraint, arena: Arena, m: SparseMatrix, insrow: nat): (r: SparseMatrix)
    requires RowFits(c, arena, m, insrow)
    ensures r.rows == m.rows && r.cols == m.cols
    ensures forall i: nat, j: nat :: Get(r, i, j) ==
              if i == insrow && Covers(BlockB(c, arena), |c.cqB|, j) then c.cqB[j - BlockB(c, arena).offset]
              else if i == insrow && Covers(BlockA(c, arena), |c.cqA|, j) then c.cqA[j - BlockA(c, arena).offset]
              else Get(m, i, j)
  {
    var blkA := BlockA(c, arena);
    var blkB := BlockB(c, arena);
    var withA := if blkA.active then PasteRow(m, c.cqA, insrow, blkA.offset) else m;
    if blkB.active then PasteRow(withA, c.cqB, insrow, blkB.offset) else withA
  }

  /** Column `inscol` exists and each active side's rows fit in `m`. */
  predicate ColumnFits(c: Constraint, arena: Arena, m: SparseMatrix, inscol: nat)
  {
    && Bound(c, arena)
    && (BlockA(c, arena).active ==> inscol < m.cols && BlockA(c, arena).offset + |c.cqA| <= m.rows)
    && (BlockB(c, arena).active ==> inscol < m.cols && BlockB(c, arena).offset + |c.cqB| <= m.rows)
  }

  /** Pastes the transposed Jacobian as column `inscol` of `m`, each active side at its block's offset. */
  function BuildCqT(c: Constraint, arena: Arena, m: SparseMatrix, inscol: nat): (r: SparseMatrix)
    requires ColumnFits(c, arena, m, inscol)
    ensures r.rows == m.rows && r.cols == m.cols
    ensures forall i: nat, j: nat :: Get(r, i, j) ==
              if j == inscol && Covers(BlockB(c, arena), |c.cqB|, i) then c.cqB[i - BlockB(c, arena).offset]
              else if j == inscol && Covers(BlockA(c, arena), |c.cqA|, i) then c.cqA[i - BlockA(c, arena).offset]
              else Get(m, i, j)
  {
    var blkA := BlockA(c, arena);
    var blkB := BlockB(c, arena);
    var withA := if blkA.active then PasteColumn(m, c.cqA, blkA.offset, inscol) else m;
    if blkB.active then PasteColumn(withA, c.cqB, blkB.offset, inscol) else withA
  }
}
