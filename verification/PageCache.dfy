/** What the eviction policies share of the kernel's page cache. */
module PageCache {

  /** A folio by its address. */
  type Folio = nat

  /** A place in a file: the address space it maps (host) and the offset. */
  datatype PageKey = PageKey(host: nat, index: nat)
}
