/**
 The part of the light store that the verification state relies on: light
 blocks, their verification status, and the status-filtered lookup
 `get(height, status)`. The store itself is a foreign implementation; here it
 is an abstract map from a height to the block recorded there together with
 the status that block currently carries.
 */
module LightStore {

  /** Block heights. The source's height type is an unsigned 64-bit integer on
      which this core does no arithmetic, so an unbounded `nat` loses nothing. */
  type Height = nat

  /** The verification status a store attaches to the block it holds. */
  datatype Status = Unverified | Verified | Trusted | Failed

  /** A light block. Only its height matters to this core; the signed header,
      commit and validator sets it carries stand here as opaque bytes. */
  datatype LightBlock = LightBlock(height: Height, content: seq<bv8>)

  /** What the store records at one height: a block and its current status. */
  datatype StoredBlock = StoredBlock(block: LightBlock, status: Status)

  /** The light store, as the map of what it holds at each height. */
  type Store = map<Height, StoredBlock>

  datatype Option<T> = None | Some(value: T)

  /** The store's `get(height, status)`: the block recorded at `height`, but only
      when its recorded status is `status`; any other case is a normal `None`.
      The store's implementation is foreign, so this is the definition of the
      lookup rather than a specification of one. */
  function Get(store: Store, height: Height, status: Status): (r: Option<LightBlock>)
  {
    if height in store && store[height].status == status then Some(store[height].block) else None
  }

  /** A store whose every record sits at the height of the block it holds, as
      a store keyed by block height keeps it. */
  ghost predicate Keyed(store: Store)
  {
    forall h :: h in store ==> store[h].block.height == h
  }
}
