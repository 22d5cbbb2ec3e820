/**
  Variable blocks: the generalized-velocity state of one dynamic entity
  together with its inverse-mass operator. Blocks live in an arena and
  constraints refer to them by index.
 */
module Variables {
  import opened Vectors

  /**
    One block of variables. `ndof` is its number of degrees of freedom
    (zero for a fixed entity), `active` is false for a disabled block,
    `offset` places its velocity segment inside a global vector, `qb` is
    its velocity, and `invM` is the ndof × ndof inverse-mass matrix whose
    action `Compute_invMb_v` computes.
   */
  datatype VarBlock = VarBlock(
    ndof: nat,
    active: bool,
    offset: nat,
    qb: seq<real>,
    invM: seq<seq<real>>)

  /** All blocks of a system, addressed by index. */
  type Arena = seq<VarBlock>

  /** The inverse-mass matrix is ndof × ndof. */
  predicate MassShaped(v: VarBlock)
  {
    |v.invM| == v.ndof && Square(v.invM)
  }

  /** A side takes part in the Schur precomputation only when its block is active and has degrees of freedom. */
  predicate Engaged(v: VarBlock)
  {
    v.active && v.ndof > 0
  }

  /** The inverse-mass action `invM · b` of one block. */
  function ComputeInvMbV(v: VarBlock, b: seq<real>): (r: seq<real>)
    requires MassShaped(v) && |b| == v.ndof
    ensures |r| == v.ndof
    ensures forall i :: 0 <= i < v.ndof ==> r[i] == Dot(v.invM[i], b)
  {
    MatVec(v.invM, b)
  }

  /** Two arenas hold the same blocks up to their velocities. */
  predicate SameLayout(x: Arena, y: Arena)
  {
    && |x| == |y|
    && forall k :: 0 <= k < |x| ==>
         && x[k].ndof == y[k].ndof
         && x[k].active == y[k].active
         && x[k].offset == y[k].offset
         && x[k].invM == y[k].invM
         && |x[k].qb| == |y[k].qb|
  }
}
