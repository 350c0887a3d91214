/** The sizes the transmit side is built with. */
module TxSizes {
  const RING: nat := 1024                // kNumTxDesc
  const MAX_SEGS: nat := 32              // kMaxSegs
  const MEMS: nat := 512                 // kNumTxMemDesc
  const WAKE: nat := RING / 10           // kTxQueueWakeTreshhold
  const RANGES: nat := RING + MAX_SEGS   // kNumTxRanges
}
