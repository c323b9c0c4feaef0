/** structs.rs: what a header is and what its commitment binds. */
module Structs {
  import opened Bytes

  /** A 32-byte value the model only compares: transaction ids and Merkle nodes. */
  type Digest(==, 0, !new)

  /** The ten timestamps before a header, oldest first. */
  type Window = s: seq<u32> | |s| == 10 witness seq(10, _ => 0)

  datatype BlockHeader = BlockHeader(
    version: u32,
    prevBlockhash: U256,
    merkleRoot: Digest,
    timestamp: u32,
    nbits: u32,
    nonce: u32)

  type Pubkey(==, 0, !new)

  /** An account a call passes along: the address derived from a block hash, taken to be injective, or any other. */
  datatype Account = HeaderTopic(blockHash: U256) | OtherAccount(key: Pubkey)

  /** A submitted header with the remaining account at its index. */
  datatype Offer = Offer(header: BlockHeader, topic: Account)

  datatype CommittedBlockHeader = CommittedBlockHeader(
    chainWork: U256,
    header: BlockHeader,
    lastDiffAdjustment: u32,
    blockheight: u32,
    prevBlockTimestamps: Window)

  /** Double SHA-256 of a header; any function at all, collisions included. */
  type BlockHash = BlockHeader -> U256

  /** A 32-byte slot: zero, or the SHA-256 of a committed header, taken to be injective and never zero. */
  datatype Commitment = NoCommitment | CommitHash(committed: CommittedBlockHeader)
}
