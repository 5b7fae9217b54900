/** How deflate's callers flush, and what its block functions report back. */
module FlushMode {
  /** Z_NO_FLUSH, a flush within the stream, and Z_FINISH. */
  datatype Flush = NoFlush | SyncFlush | Finish

  /** block_state: more input or output space is needed, the block is flushed, finishing has begun with
      only more output space needed, or finishing is done. */
  datatype BlockState = NeedMore | BlockDone | FinishStarted | FinishDone
}
