/** The segment tag reserve (kernel-3/kern/vmem.c:171-219): what each operation does to it. */
module VmReserve {

  const RESERVE_LOW: nat := 128     // seg_refill leaves the reserve alone from here up
  const BOOT_TAGS: nat := 126       // of the first 128 the kernel map's own segments took two
  const TAGS_PER_BLOCK: nat := 63
  const PEAK: nat := 5              // most tags one bootstrap allocation holds at a time

  datatype TagOp = Kalloc | MapObject | Release | InitMap

  /** What `seg_refill` leaves: a block of tags less the two or three its page cost. */
  predicate Refill(n: nat, n': nat) {
    if RESERVE_LOW <= n then n' == n else n + TAGS_PER_BLOCK - 3 <= n' <= n + TAGS_PER_BLOCK - 2
  }

  /** What an allocation in the kernel map leaves. A bootstrap allocation refills nothing. */
  predicate KmapStep(n: nat, bootstrap: bool, n': nat) {
    if bootstrap then n - 1 <= n' <= n else Refill(n, n') || Refill(n, n' + 1)
  }

  /** What an operation that completes may leave of the reserve. `Kalloc` asks for a refill twice: before
      it takes the two tags of the wired segment and before it splits the kernel map. The arena of a new
      map takes two tags and refills nothing. */
  predicate TagStep(n: nat, op: TagOp, n': nat) {
    match op
    case Kalloc =>
      if RESERVE_LOW <= n then KmapStep(n - 2, false, n')
      else KmapStep(n + TAGS_PER_BLOCK - 5, false, n') || KmapStep(n + TAGS_PER_BLOCK - 4, false, n')
    case MapObject => Refill(n, n') || Refill(n, n' + 1) || Refill(n, n' + 2)
    case Release => n <= n'
    case InitMap => n' == n - 2
  }

  lemma KmapLeaves(n: nat, bootstrap: bool, n': nat)
    requires KmapStep(n, bootstrap, n')
    ensures n <= n' + 1
  {}

  lemma KallocLeaves(n: nat, bootstrap: bool, m: nat, n': nat)
    requires if bootstrap then m == n else Refill(n, m)
    requires 2 <= m && KmapStep(m - 2, bootstrap, n')
    ensures if bootstrap then n - 3 <= n' <= n - 2 else TagStep(n, Kalloc, n')
  {}
}
