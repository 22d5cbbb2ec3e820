# Generic two-body constraint of a multibody solver, in Dafny

This project models `ChConstraintTwoGeneric` of Project Chrono. It is one
scalar constraint row linking two variable blocks `a` and `b`. The
constraint holds the Jacobian row blocks `Cq_a` and `Cq_b`. It also holds the
derived blocks `Eq_a = invM_a · Cq_aᵀ` and `Eq_b = invM_b · Cq_bᵀ`, the diagonal
Schur term `g_i` and the constraint-force-mixing term `cfm_i`. It provides
these matrix-free operations:

- binding to variables (`SetVariables`);
- copying (the copy constructor and `operator=`);
- the Schur precomputation (`Update_auxiliary`);
- the constraint rate `Cq·q` (`Compute_Cq_q`);
- impulse propagation (`Increment_q`);
- the products against full-length vectors (`MultiplyAndAdd`, `MultiplyTandAdd`);
- sparse pasting of the Jacobian (`Build_Cq`, `Build_CqT`).

The model is functional and uses exact `real` arithmetic:

- `Vectors` (`vectors.dfy`): dense vectors, the dot product and its laws, a
  square matrix-vector product, and adding a short vector into a segment.
- `Variables` (`variables.dfy`): a variable block has `ndof`, `active`,
  `offset`, the velocity `qb` and an explicit `ndof × ndof` inverse-mass
  matrix. The inverse-mass action `Compute_invMb_v` is the product with that
  matrix. Blocks live in an arena (`seq<VarBlock>`) and are named by index.
- `SparseMatrices` (`sparse_matrix.dfy`): a fixed-size sparse matrix whose
  absent entries read as zero. Pasting overwrites the entries it covers.
- `Options` (`options.dfy`): `Option`, where `None` stands for a null pointer.
- `ConstraintTwoGeneric` (`constraint_two_generic.dfy`): the constraint
  record and its operations. Each operation is a pure function. One that
  changes velocities returns the new arena.
- `ConstraintLaws` (`constraint_laws.dfy`): the algebraic laws that relate the
  operations to each other.

Each operation requires what the C++ code relies on without checking it:

- the links it dereferences are set and name blocks of the arena (`Bound`);
- the vectors that are dotted or added have equal lengths (`RateReady`,
  `ImpulseReady`, `AuxiliaryReady`);
- on a side the precomputation updates, the `Eq` buffer that binding
  allocated has the block's size, because `Compute_invMb_v` writes into it
  (`AuxiliaryReady`);
- every segment read from or written into a full vector or a sparse matrix
  fits (`SegmentsFit`, `RowFits`, `ColumnFits`).

Three properties of the C++ code that a reader might not expect:

- The operations do not check the validity flag, so a failed binding does
  not silence them. A binding that fails on a null block leaves the previous
  links in place. The rate and the impulse propagation then keep acting on
  the previously bound blocks (`FailedBindingKeepsActing`).
- A side whose block has no degrees of freedom is not resized to length zero
  on binding. Its old `Cq`/`Eq` survive, so they can disagree with the newly
  bound block (`StaleJacobianOnFixedSide`).
- `Build_Cq` pastes with overwrite and `MultiplyAndAdd` accumulates. When both
  links name the same block, the two therefore disagree
  (`PastedRowDropsOverlap`). On non-overlapping segments they agree
  (`PastedRowMatchesProduct`).

## Model

| member | source | states |
|---|---|---|
| `ConstraintTwoGeneric.SetVariables` | src/chrono/solver/ChConstraintTwoGeneric.cpp:50-71 | A null argument clears only the validity flag: links, Jacobians, derived blocks and scalars are kept. Two blocks make the constraint valid and record both links. Each side with `ndof > 0` gets an all-zero `Cq` and an `Eq`, both of length `ndof`. A side with `ndof == 0` keeps its old `Cq` and `Eq`. |
| `ConstraintTwoGeneric.Copy` | src/chrono/solver/ChConstraintTwoGeneric.cpp:28-48 | The copy holds every field of the source, including the links. Both constraints therefore address the same blocks. |
| `ConstraintTwoGeneric.UpdateAuxiliary` | src/chrono/solver/ChConstraintTwoGeneric.cpp:73-106 | Each side that is active with `ndof > 0` gets `Eq = invM · Cqᵀ`. Any other side keeps its `Eq`. `g_i` becomes the sum of `Cq·invM·Cqᵀ` over the engaged sides plus `cfm_i`. Only `Eq` and `g_i` change. |
| `ConstraintTwoGeneric.ComputeCqQ` | src/chrono/solver/ChConstraintTwoGeneric.cpp:108-120 | With both sides inactive the rate is zero. The value is fixed by the rate lemmas below. |
| `ConstraintTwoGeneric.IncrementQ` | src/chrono/solver/ChConstraintTwoGeneric.cpp:122-130 | Each velocity entry of an active linked block grows by `Eq_side[j]·d`. A block linked on both sides gets both increments. Every other block is unchanged, and no block changes `ndof`, `active`, `offset`, mass or velocity length. |
| `ConstraintTwoGeneric.MultiplyAndAdd` | src/chrono/solver/ChConstraintTwoGeneric.cpp:132-140 | With both sides inactive the accumulator is returned unchanged. The value is fixed by the product lemmas below. |
| `ConstraintTwoGeneric.MultiplyTAndAdd` | src/chrono/solver/ChConstraintTwoGeneric.cpp:142-150 | The length is preserved. Entry `k` grows by `Cq_side[k − offset_side]·l` for each active side whose segment covers `k`. Entries outside every active segment are unchanged. |
| `ConstraintTwoGeneric.BuildCq` | src/chrono/solver/ChConstraintTwoGeneric.cpp:152-157 | The dimensions are kept. In row `insrow`, an active side's columns `offset .. offset+|Cq|` hold its `Cq`, and side `b` wins on overlap. Inactive sides write nothing, and every other entry is unchanged. |
| `ConstraintTwoGeneric.BuildCqT` | src/chrono/solver/ChConstraintTwoGeneric.cpp:159-164 | The same as `BuildCq`, transposed: column `inscol`, rows `offset .. offset+|Cq|`. |
| `ConstraintLaws.SetVariablesIdempotent` | src/chrono/solver/ChConstraintTwoGeneric.cpp:50-71 | Binding twice to the same blocks equals binding once. |
| `ConstraintLaws.FreshBindingRateIsZero` | src/chrono/solver/ChConstraintTwoGeneric.cpp:60-70 | Right after binding two blocks with `ndof > 0`, the rate is 0 for any velocities of those blocks. |
| `ConstraintLaws.FailedBindingKeepsActing` | src/chrono/solver/ChConstraintTwoGeneric.cpp:50-54 | After a binding in which either argument is null, the constraint is invalid. Its rate and its impulse propagation still equal those of the constraint before the call. |
| `ConstraintLaws.StaleJacobianOnFixedSide` | src/chrono/solver/ChConstraintTwoGeneric.cpp:60-70 | Take one arena holding a 1-dof block and an active 0-dof block. Rebinding from the first to the second leaves a `Cq_a` of length 1, which no longer fits the new block's velocity. |
| `ConstraintLaws.ShapeEstablishedAndKept` | src/chrono/solver/ChConstraintTwoGeneric.cpp:56-81 | Binding two blocks gives `Cq` and `Eq` of length `ndof` on every side with `ndof > 0`. It makes the precomputation applicable, and the precomputation keeps those lengths. |
| `ConstraintLaws.ShapedIsReady` | src/chrono/solver/ChConstraintTwoGeneric.cpp:108-130 | On blocks with `ndof > 0` whose velocities have `ndof` entries, that shape lets the rate and the impulse propagation be computed. |
| `ConstraintLaws.SchurIdentity` | src/chrono/solver/ChConstraintTwoGeneric.cpp:94-105 | After the precomputation, `g_i = Cq_a·Eq_a + Cq_b·Eq_b + cfm_i`. Each term is counted only for an active side with `ndof > 0`; any other side contributes exactly 0. |
| `ConstraintLaws.UpdateAuxiliaryIdempotent` | src/chrono/solver/ChConstraintTwoGeneric.cpp:73-106 | Running the precomputation a second time changes nothing. |
| `ConstraintLaws.SchurTermAtLeastCfm` | src/chrono/solver/ChConstraintTwoGeneric.cpp:94-105 | With positive semidefinite inverse-mass matrices, `g_i ≥ cfm_i`: the effective inverse mass is never negative. |
| `ConstraintLaws.TwoUnitBodiesSchurTerm` | src/chrono/solver/ChConstraintTwoGeneric.cpp:73-106 | Take two 3-dof blocks with identity inverse mass, `Cq_a = [1,0,0]`, `Cq_b = [−1,0,0]`, `Eq` buffers of length 3 and no mixing. Then `g_i = 2`. |
| `ConstraintLaws.IncrementQInverse` | src/chrono/solver/ChConstraintTwoGeneric.cpp:122-130 | `Increment_q(d)` followed by `Increment_q(−d)` restores the whole arena exactly. |
| `ConstraintLaws.IncrementQAdditive` | src/chrono/solver/ChConstraintTwoGeneric.cpp:122-130 | `Increment_q(d1)` followed by `Increment_q(d2)` equals `Increment_q(d1 + d2)`. |
| `ConstraintLaws.FusedStep` | src/chrono/solver/ChConstraintTwoGeneric.cpp:95-130 | Take two distinct engaged blocks, right after the precomputation. Pushing `d` raises the rate by exactly `d·(g_i − cfm_i)`. |
| `ConstraintLaws.FusedStepSharedBlock` | src/chrono/solver/ChConstraintTwoGeneric.cpp:95-130 | When both links name the same engaged block, pushing `d` raises the rate by `d·(g_i − cfm_i + Cq_a·Eq_b + Cq_b·Eq_a)`. So the fused-step law needs distinct blocks. |
| `ConstraintLaws.RateMatchesFullVectorProduct` | src/chrono/solver/ChConstraintTwoGeneric.cpp:108-140 | Put each active block's velocity at its offset in a full vector. `MultiplyAndAdd(0, v)` on that vector equals `Compute_Cq_q`. |
| `ConstraintLaws.MultiplyAndAddReadsOnlySegments` | src/chrono/solver/ChConstraintTwoGeneric.cpp:132-140 | Two full vectors that agree on the active sides' segments give the same product. |
| `ConstraintLaws.MultiplyAndAddAccumulates` | src/chrono/solver/ChConstraintTwoGeneric.cpp:132-140 | The accumulator is only shifted: `MultiplyAndAdd(x, v) = x + MultiplyAndAdd(0, v)`. |
| `ConstraintLaws.TransposeProductAdjoint` | src/chrono/solver/ChConstraintTwoGeneric.cpp:132-150 | The two products are adjoint: `(result + Cqᵀ l)·v = result·v + l·(Cq v)` for every full vector `v`. |
| `ConstraintLaws.MultiplyTAndAddAdditive` | src/chrono/solver/ChConstraintTwoGeneric.cpp:142-150 | Adding `Cqᵀ l1` and then `Cqᵀ l2` equals adding `Cqᵀ (l1 + l2)`. |
| `ConstraintLaws.BuildCqIdempotent` | src/chrono/solver/ChConstraintTwoGeneric.cpp:152-157 | Pasting the row twice gives the same matrix as pasting it once: pasting overwrites and does not accumulate. |
| `ConstraintLaws.BuildCqTIdempotent` | src/chrono/solver/ChConstraintTwoGeneric.cpp:159-164 | Pasting the transposed column twice gives the same matrix as pasting it once. |
| `ConstraintLaws.BuildCqTMirrorsBuildCq` | src/chrono/solver/ChConstraintTwoGeneric.cpp:152-164 | Paste into empty matrices. Column `inscol` of the transposed paste equals row `insrow` of the row paste, and nothing else is written. |
| `ConstraintLaws.PastedRowMatchesProduct` | src/chrono/solver/ChConstraintTwoGeneric.cpp:132-157 | When the active segments do not overlap, the row pasted into an empty matrix, dotted with any `v`, equals `MultiplyAndAdd(0, v)`. |
| `ConstraintLaws.PastedRowDropsOverlap` | src/chrono/solver/ChConstraintTwoGeneric.cpp:152-157 | Take one active 1-dof block linked on both sides, with `Cq_a = Cq_b = [1]`. The pasted entry is 1, because it holds only `Cq_b`. The matrix-free product against `[1]` is 2, because it adds both sides. |

## Left out

- `ConstraintTwoGeneric.ComputeCqQ`: its own contract only fixes the all-inactive case. Its value is characterised by `FreshBindingRateIsZero`, `FusedStep`, `FusedStepSharedBlock` and `RateMatchesFullVectorProduct`.
- `ConstraintTwoGeneric.MultiplyAndAdd`: its own contract only fixes the all-inactive case. Its value is characterised by `RateMatchesFullVectorProduct`, `MultiplyAndAddReadsOnlySegments`, `MultiplyAndAddAccumulates`, `TransposeProductAdjoint` and `PastedRowMatchesProduct`.
- `ConstraintTwoGeneric.SetVariables`: when the size of `Eq` changes, Eigen leaves its contents unspecified. The model fills them with zeros, and no contract states those contents, only the length.
- Floating-point rounding: the model uses exact `real` arithmetic. The laws hold exactly here but only approximately in double precision. This also settles the storage-order question about `dot` at lines 83-92.
- `Compute_invMb_v`, `Get_qb`, `GetOffset`, `PasteMatrix`/`PasteTranspMatrix` and Eigen are foreign code. The inverse mass is an explicit matrix per block. Pasting writes every entry it covers and overwrites, with no special treatment of zeros. Block offsets are non-negative.
- The constructors: the two-argument constructor (lines 24-26) only calls `SetVariables`. The default constructor has an empty body (line 22). Its initial state comes from the member initialisers and from the parent classes `ChConstraintTwo` and `ChConstraint`, which this model does not cover. For the same reason the model leaves out the parent-class fields beyond `g_i`, `cfm_i` and the validity flag, such as `l_i`.
- `ArchiveOUT`/`ArchiveIN` and the factory registration: they are serialization and a factory, and write no Jacobian data.
- The iterative solver (sweeps, multiplier projection, warm starting, degenerate `g_i` handling): its source is not part of this model.
