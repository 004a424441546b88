/** A PROM that is erased, written from a file and verified against it. */
module BootProm {
  import opened Words
  import opened McsReader
  import opened FlashChip
  import opened FlashPages
  import opened FlashImage
  import opened AxiMicronN25Q
  import opened FlashLoader

  /** The loader and the two readers share no buffer. */
  ghost predicate Apart(loader: Loader, one: McsRead, other: McsRead) {
    && one != other
    && loader.data_ as object !in {one.promData as object, one.promAddr, other.promData, other.promAddr}
    && one.promData as object !in {other.promData as object, other.promAddr}
    && one.promAddr as object !in {other.promData as object, other.promAddr}
  }

  /** What the three passes come to. */
  lemma Loaded(mem: seq<Byte>, mode32: bool, s: Stream, start: Word, size: Word, end: nat)
    requires SweepFits(mem, mode32, start, size, end)
    requires Complete(s, size) && Contiguous(Used(s, size), start)
    ensures SweepEnds(start, Wrap(start + size)) && start + |Used(s, size)| <= end <= |mem|
    ensures var (out, pages) := Programming(true, s, size);
            && out == (if size == 0 then False else True)
            && (forall p :: p in pages ==> |p.bytes| == PAGE)
            && var now := ProgramAll(EraseSweep(mem, mode32, start, Wrap(start + size)), mode32, pages);
               && now == Overlay(mem, start, Datas(Used(s, size)) + Fill(end - start - |Used(s, size)|))
               && Verified(now, mode32, true, s, size) == out
  {
    hide EraseSweep, ProgramAll, Contiguous, SweepEnds, SweepFits, Fill, Datas, Pages, Padded, Matches, Verdict, Used;
    SweepInside(mem, mode32, start, size, end);
    LoadedImageVerifies(mem, mode32, s, start, size, end);
    UsedFits(s, size);
    ImageWritten(mem, mode32, Used(s, size), start, size, end);
    NothingToWrite(s);
  }

  lemma SweepInside(mem: seq<Byte>, mode32: bool, start: Word, size: Word, end: nat)
    requires SweepFits(mem, mode32, start, size, end)
    ensures end <= |mem|
  {
  }

  lemma NothingToWrite(s: Stream)
    ensures Pages(Used(s, 0)) == []
  {
  }

  /**
   * The three passes in order, each with the file read from its beginning: both results are true unless the
   * size is 0, no erase or program reaches a busy or disabled chip, and the memory is the file with ones up to
   * the end of the last sector.
   */
  method LoadBootProm(loader: Loader, writing: McsRead, checking: McsRead, ghost s: Stream, ghost end: nat)
      returns (written: Outcome, verified: Outcome)
    requires loader.Valid() && loader.programmed == []
    requires writing.Valid() && writing.State() == Start(writing.ended)
    requires checking.Valid() && checking.State() == Start(checking.ended)
    requires s == ReadAll(writing.lines, Start(writing.ended)) == ReadAll(checking.lines, Start(checking.ended))
    requires Apart(loader, writing, checking)
    requires SweepFits(loader.chip.mem, loader.mode32, loader.promStartAddr, loader.promSize, end)
    requires Complete(s, loader.promSize) && Contiguous(Used(s, loader.promSize), loader.promStartAddr)
    modifies loader, loader.data_, writing, writing.promData, writing.promAddr
    modifies checking, checking.promData, checking.promAddr
    ensures loader.promSize == old(loader.promSize)
    ensures written == verified == if loader.promSize == 0 then False else True
    ensures loader.chip.clean == old(loader.chip.clean)
    ensures var items := Used(s, loader.promSize);
            && loader.promStartAddr + |items| <= end <= |old(loader.chip.mem)|
            && loader.chip.mem == Overlay(old(loader.chip.mem), loader.promStartAddr,
                                          Datas(items) + Fill(end - loader.promStartAddr - |items|))
  {
    hide ReadAll, Contiguous, Complete, SweepFits, SweepEnds, Programming, Verified, EraseSweep, ProgramAll, Datas,
      Used, Fill;
    ghost var mem := loader.chip.mem;
    Loaded(mem, loader.mode32, s, loader.promStartAddr, loader.promSize, end);
    loader.EraseBootProm();
    written := loader.WriteBootProm(writing, true);
    verified := loader.VerifyBootProm(checking, true);
  }
}
