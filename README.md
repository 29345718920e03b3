# Light client verification state

A model of the state a Tendermint light client keeps while it verifies
headers (`light-client/src/state.rs`): the light store that holds light blocks
tagged with a verification status, and the verification trace, which records
for each target height the heights of the blocks used as evidence to verify it
(for instance the two hops of a bisection step).

- `light_store.dfy` (module `LightStore`): heights, the four statuses
  (`Unverified`, `Verified`, `Trusted`, `Failed`), light blocks, and the
  store as a map from a height to the block recorded there with its status.
  `Get(store, h, s)` is the store's `get(height, status)`: the block only when
  its recorded status is `s`.
- `state.dfy` (module `LightClientState`): the trace type, the class `State`
  with the fields `lightStore` and `verificationTrace`, its constructor
  (`new`), `TraceBlock` (`trace_block`) and `GetTrace` (`get_trace`), and the
  specification functions and lemmas they are proved against.
  - `TraceBlock` requires `height <= targetHeight` (the source's `#[pre]`),
    changes only the trace, and leaves it equal to `Record(old trace, ...)`:
    the entry for the target is created if missing and gains the height.
    Lemmas show that recording an edge already present changes nothing
    (idempotence), that the "evidence at or below its target" invariant is
    kept, and that after any sequence of calls the evidence for a target is
    what it had plus the heights recorded for it, in whatever order and
    however often.
  - `GetTrace` changes nothing. Its result holds exactly the blocks that
    `get(h, Verified)` returns for the evidence heights of the target,
    counted with multiplicity (`VerifiedEvidence`), and is ordered by height,
    most recent first. A target with no entry gives an empty result. When the
    store is keyed by block height (every record sits at its block's height),
    the result is strictly descending and its heights are exactly the
    evidence heights whose block is Verified.
  - The evidence is walked in whatever order the set yields it (a `:|`
    choice, standing for `HashSet` iteration order); `VerifiedEvidenceRemove`
    shows that the collected blocks do not depend on that order.
- `block_order.dfy` (module `BlockOrder`): the ordering step of `get_trace`,
  `sort_by_key(|lb| lb.height())` followed by `reverse()`, on an array standing
  for the local vector.

Only blocks whose status is `Verified` are returned: a height whose block is
`Trusted`, such as the anchor a bisection starts from, is traced but never
returned by `GetTrace`. `LightClientState.BisectionScenario` and
`LightClientState.TrustedAnchorScenario` show this for an anchor at 100, a
midpoint at 150 and a target at 200.

## Model

| member | source | states |
|---|---|---|
| LightClientState.State.constructor | light-client/src/state.rs:23-29 | a new state holds the supplied store and an empty trace, which satisfies the evidence-at-or-below-target invariant |
| LightClientState.Record | light-client/src/state.rs:36-40 | recording `(target, height)` adds `target` to the traced targets, makes its evidence the previous evidence (or none) plus `height`, and leaves every other target's evidence as it was |
| LightClientState.State.TraceBlock | light-client/src/state.rs:31-41 | requires `height <= targetHeight`; afterwards the trace is the old trace with the edge recorded, `height` is in the target's evidence, the store is unchanged, and the ordering invariant is kept |
| LightClientState.RecordPresent | light-client/src/state.rs:37-40 | inserting an evidence height that is already in the target's set leaves the whole trace unchanged |
| LightClientState.RecordIdempotent | light-client/src/state.rs:37-40 | recording the same edge twice gives the same trace as recording it once |
| LightClientState.RecordKeepsOrder | light-client/src/state.rs:33-40 | an edge allowed by the precondition keeps every evidence height at or below its target |
| LightClientState.RecordAllEvidence | light-client/src/state.rs:36-40 | after any sequence of recorded edges, a target's evidence is its previous evidence plus exactly the heights recorded for it, independent of call order and repetition |
| LightClientState.VerifiedEvidenceRemove | light-client/src/state.rs:45-51 | the blocks collected from the evidence set do not depend on the order in which the set is walked |
| LightClientState.VerifiedEvidenceComplete | light-client/src/state.rs:50 | the Verified block at every evidence height is among the collected blocks |
| LightClientState.VerifiedEvidenceSound | light-client/src/state.rs:50 | every collected block is the Verified block at some evidence height; no other status is let through |
| LightClientState.VerifiedEvidenceKeyed | light-client/src/state.rs:50 | in a store keyed by block height, no block is collected twice and each sits at its own evidence height |
| LightClientState.CollectVerified | light-client/src/state.rs:45-51 | the flat-map over the evidence collects exactly the Verified blocks at the evidence heights, with multiplicity |
| BlockOrder.InsertLast | light-client/src/state.rs:53 | one insertion step extends an ascending-by-height prefix by one element, keeps the same blocks, and leaves everything after the new prefix untouched |
| BlockOrder.SortByHeight | light-client/src/state.rs:53 | sorting by height leaves the vector ascending by height and a permutation of what it held |
| BlockOrder.Reverse | light-client/src/state.rs:54 | reversing in place leaves the vector read back to front |
| BlockOrder.ReversedSameElements | light-client/src/state.rs:54 | reversing keeps every block, as often as before |
| BlockOrder.ReversedAscending | light-client/src/state.rs:53-54 | an ascending sequence reversed is descending by height |
| BlockOrder.StrictWhenDistinct | light-client/src/state.rs:53-54 | a descending sequence with no repeated block, in which a height determines the block, is strictly descending |
| BlockOrder.SortDescendingByHeight | light-client/src/state.rs:53-55 | sort then reverse yields the same blocks, ordered by height with the most recent first |
| LightClientState.KeyedTrace | light-client/src/state.rs:44-55 | over a store keyed by block height, a descending arrangement of the collected blocks is strictly descending and its heights are exactly the evidence heights whose block is Verified |
| LightClientState.KeyedTraceHeights | light-client/src/state.rs:46-51 | over a store keyed by block height, the heights of the collected blocks are exactly the Verified evidence heights |
| LightClientState.KeyedTraceBelowTarget | light-client/src/state.rs:33-35 | over a keyed store and a trace whose evidence lies at or below its targets, every collected block lies at or below the target |
| LightClientState.State.GetTrace | light-client/src/state.rs:43-56 | the result holds exactly the Verified blocks at the target's evidence heights, is ordered by height most recent first, is empty for an untraced target, and is strictly descending with exactly the Verified evidence heights when the store is keyed, and lies at or below the target when the trace also keeps its ordering invariant; the state is not modified |

## Left out

- LightStore.Get: defined, not specified, because the store is foreign; it
  is the lookup the rest of the model is proved against.
- The light store's implementation (a foreign trait object) and the rest of
  its interface (`update`, `highest`, `lowest`): `state.rs` only calls
  `get(height, Verified)`, which is modelled; the store is a value field
  `map<Height, StoredBlock>`, so the store is not shared or aliased.
- The runtime precondition machinery of the `contracts` crate: it becomes a
  `requires` clause on `TraceBlock`, so a violating call is rejected by the
  verifier rather than halting at run time.
- The iteration order of `HashMap` and `HashSet`: the maps and sets are
  Dafny `map` and `set`, and set iteration is an arbitrary choice, which the
  sort erases.
- The standard library's sorting algorithm and its stability: an insertion
  sort with the same postcondition (sorted by height, a permutation) stands
  for it, and the order of two blocks at the same height is not specified.
- Heights are unbounded naturals rather than 64-bit unsigned integers; this
  core does no arithmetic on them.
- The light block's header, commit and validator sets are opaque bytes; this
  core only reads the height.
- The bisection verifier, the trust-threshold checker, the fetch client and
  the clock are not part of this model: they live outside `state.rs`.
- The `Debug` derive and the `Box`/`'static` ownership of the store.
