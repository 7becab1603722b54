/** The ledger entry of src/types/blockchain.ts and the five user fields
    every caller of `addBlock` supplies. */
module Blocks {

  /** A ledger entry: nine fields. `index` is the only numeric one (a
      JavaScript number, here an integer); `quantity` and `price` are text
      whose numeric meaning comes from the parsing done by consumers;
      `prevHash` and `hash` are unconstrained text, the `"0"` sentinel and
      the 20-character length come from the ledger code alone. */
  datatype Block = Block(
    index: int,
    timestamp: string,
    farmer: string,
    crop: string,
    quantity: string,
    price: string,
    notes: string,
    prevHash: string,
    hash: string)

  /** `Omit<Block, 'index' | 'timestamp' | 'hash' | 'prevHash'>`: what the
      forms hand to `addBlock`, in the key order every caller writes. */
  datatype BlockData = BlockData(
    farmer: string,
    crop: string,
    quantity: string,
    price: string,
    notes: string)

  /** The user-supplied part of a block. */
  function DataOf(b: Block): (d: BlockData)
    ensures d.farmer == b.farmer && d.crop == b.crop && d.quantity == b.quantity
    ensures d.price == b.price && d.notes == b.notes
  {
    BlockData(b.farmer, b.crop, b.quantity, b.price, b.notes)
  }

  /** A block assembled from user data and the four ledger-managed fields,
      as the object spread in `addBlock` does. */
  function Assemble(d: BlockData, index: int, timestamp: string, prevHash: string, hash: string): (b: Block)
    ensures DataOf(b) == d
    ensures b.index == index && b.timestamp == timestamp && b.prevHash == prevHash && b.hash == hash
  {
    Block(index, timestamp, d.farmer, d.crop, d.quantity, d.price, d.notes, prevHash, hash)
  }

  /** Every block is exactly its user data plus the four ledger fields:
      the record has no other field. */
  lemma {:induction false} NineFields(b: Block)
    ensures Assemble(DataOf(b), b.index, b.timestamp, b.prevHash, b.hash) == b
  {
  }
}
