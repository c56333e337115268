/** Where the allocator meets the instrumented programs: what a program gets from
    the one are regions for the other. */
module ProgramRegions {
  import opened Bits
  import opened BoundsCheck
  import opened BuddyHeap
  import IR
  import opened Programs
  import opened SizeTable
  import opened Words

  /** The live heap blocks of a program and its registered regions, as far as the
      heap leaves them alone, are regions in the sense of the theorems on instrumented programs,
      which so apply to pointers from malloc, to globals and to the stack. */
  lemma BlocksAreRegions(t: seq<Byte>, s: Program)
    requires Sound(s) && TableOk(t, s.heap) && |t| == TABLE_SLOTS && Shown(t, s.regions, s.heap.lo)
    ensures var whole := map c | c in s.regions && Whole(c, s.regions[c], s.heap.lo) :: s.regions[c];
            IR.RegionsOk(t, whole + Live(s.heap))
  {
    hide Inv, Coalesced, TableOk, Aligned, Pow2;
    SoundSizes(s);
    forall c | c in Live(s.heap)
      ensures Region(t, c, s.heap.blocks[c].log) && c + Pow2(s.heap.blocks[c].log) <= TABLE_START
    {
      HeapBlockIsRegion(t, s.heap, c);
      BelowLimit(s.heap, c);
    }
    forall c | c in s.regions && Whole(c, s.regions[c], s.heap.lo)
      ensures Region(t, c, s.regions[c]) && c + Pow2(s.regions[c]) <= TABLE_START
    {
      ShownRegion(t, c, s.regions[c], s.heap.lo);
    }
  }

  lemma BelowLimit(h: Heap, b: nat)
    requires Inv(h) && b in h.blocks
    ensures b + Pow2(h.blocks[b].log) <= TABLE_START
  {
    assert BlockOk(h, b);
  }
}
