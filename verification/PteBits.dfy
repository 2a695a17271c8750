/** The bit layout of page table entries and virtual addresses (kernel/riscv.h). The other modules
    work with decoded entries; these lemmas say that the macros decode what they encode. */
module PteBits {

  const PTE_V: bv64 := 0x1
  const PTE_W: bv64 := 0x4
  const PTE_COW: bv64 := 0x100

  function PA2PTE(pa: bv64): bv64 { (pa >> 12) << 10 }

  function PTE2PA(pte: bv64): bv64 { (pte >> 10) << 12 }

  function PTE_FLAGS(pte: bv64): bv64 { pte & 0x3FF }

  /** The word map_pages writes gives back the page address and the flags, with PTE_V set. */
  lemma EntryRoundTrip(pa: bv64, perm: bv64)
    requires pa & 0xFFF == 0 && pa < 0x100_0000_0000_0000 && perm & 0x3FF == perm
    ensures var pte := PA2PTE(pa) | perm | PTE_V;
            PTE2PA(pte) == pa && PTE_FLAGS(pte) == perm | PTE_V && pte & PTE_V == PTE_V
  {
  }

  /** do_fork: the shared entry has PTE_COW set and PTE_W clear, and the same page and other flags. */
  lemma ForkWord(pte: bv64)
    requires pte & PTE_V == PTE_V && pte < 0x40_0000_0000_0000
    ensures var flags := (PTE_FLAGS(pte) & !PTE_W) | PTE_COW;
            var pte' := PA2PTE(PTE2PA(pte)) | flags | PTE_V;
            && PTE2PA(pte') == PTE2PA(pte)
            && pte' & PTE_COW == PTE_COW && pte' & PTE_W == 0
            && pte' & !(PTE_COW | PTE_W) == pte & !(PTE_COW | PTE_W)
  {
  }

  /** handle_user_page_fault: the private entry has PTE_W set and PTE_COW clear, the new page and
      the other flags of the old entry. */
  lemma FaultWord(pte: bv64, page: bv64)
    requires pte & PTE_V == PTE_V && page & 0xFFF == 0 && page < 0x100_0000_0000_0000
    ensures var flags := (PTE_FLAGS(pte) & !PTE_COW) | PTE_W;
            var pte' := PA2PTE(page) | flags | PTE_V;
            && PTE2PA(pte') == page
            && pte' & PTE_W == PTE_W && pte' & PTE_COW == 0
            && PTE_FLAGS(pte') & !(PTE_COW | PTE_W) == PTE_FLAGS(pte) & !(PTE_COW | PTE_W)
  {
  }

  /** The index macros for the three levels, and the page they belong to. */
  lemma IndicesRoundTrip(va: bv64)
    requires va < 0x40_0000_0000
    ensures var px0, px1, px2 := (va >> 12) & 0x1FF, (va >> 21) & 0x1FF, (va >> 30) & 0x1FF;
            (px2 << 30) | (px1 << 21) | (px0 << 12) | (va & 0xFFF) == va
  {
  }
}
