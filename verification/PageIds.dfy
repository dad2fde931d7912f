/** Page numbers, shared by the cache, the latches and the index (src/ids.rs). */
module PageIds {
  type PageId = nat
}
