/** What erasing, writing and verifying a contiguous image leave in the chip. */
module FlashImage {
  import opened Words
  import opened McsReader
  import opened FlashChip
  import opened FlashPages
  import opened AxiMicronN25Q

  /** The bytes of the image follow one another from `start`. */
  predicate Contiguous(items: seq<Item>, start: nat) {
    forall i :: 0 <= i < |items| ==> items[i].address == start + i
  }

  /** The sweep from `start` for `size` bytes stops at the sector boundary `end`, inside the chip. */
  predicate SweepFits(mem: seq<Byte>, mode32: bool, start: nat, size: nat, end: nat) {
    && start % SECTOR == 0 && end % SECTOR == 0
    && end - SECTOR < start + size <= end <= |mem|
    && start + size <= TWO_32 - SECTOR
    && (!mode32 ==> end <= 0x100_0000)
  }

  lemma OverlayOver(mem: seq<Byte>, a: nat, under: seq<Byte>, bytes: seq<Byte>)
    requires |bytes| <= |under| && a + |under| <= |mem|
    ensures Overlay(Overlay(mem, a, under), a, bytes) == Overlay(mem, a, bytes + under[|bytes|..])
  {
  }

  /* ----- Erasing ----- */

  lemma EraseOverlay(mem: seq<Byte>, a: nat)
    requires a % SECTOR == 0 && a + SECTOR <= |mem|
    ensures Erase(mem, a) == Overlay(mem, a, Fill(SECTOR))
  {
    forall x | 0 <= x < |mem| ensures Erase(mem, a)[x] == Overlay(mem, a, Fill(SECTOR))[x] {
      assert x / SECTOR == a / SECTOR <==> a <= x < a + SECTOR;
    }
  }

  lemma SectorsLeft(a: nat, limit: nat, end: nat)
    requires a % SECTOR == 0 && end % SECTOR == 0 && a <= end && end - SECTOR < limit <= end
    ensures a < limit ==> a + SECTOR <= end
    ensures a >= limit ==> a == end
  {
  }

  /** An aligned sweep erases everything from its start to its end, and nothing else. */
  lemma {:induction false} SweepErases(mem: seq<Byte>, mode32: bool, a: Word, limit: Word, end: nat)
    requires SweepEnds(a, limit) && a % SECTOR == 0 && end % SECTOR == 0
    requires a <= end <= |mem| && end - SECTOR < limit <= end && (!mode32 ==> end <= 0x100_0000)
    ensures EraseSweep(mem, mode32, a, limit) == Overlay(mem, a, Fill(end - a))
    decreases end - a
  {
    hide EraseSweep, Erase, Overlay, Fill, SweepEnds;
    SectorsLeft(a, limit, end);
    if a < limit {
      EraseSweepStep(mem, mode32, a, limit);
      EraseOverlay(mem, a);
      SweepErases(Erase(mem, a), mode32, a + SECTOR, limit, end);
      OverlayTwice(mem, a, Fill(SECTOR), Fill(end - a - SECTOR));
      FillTwice(SECTOR, end - a - SECTOR);
    } else {
      FillNone();
      NoOverlay(mem, a, []);
      SweepDone(mem, mode32, a, limit);
    }
  }

  lemma FillTwice(m: nat, n: nat)
    ensures Fill(m) + Fill(n) == Fill(m + n)
  {
  }

  lemma FillNone()
    ensures Fill(0) == []
  {
  }

  lemma SweepDone(mem: seq<Byte>, mode32: bool, a: Word, limit: Word)
    requires SweepEnds(a, limit) && a >= limit
    ensures EraseSweep(mem, mode32, a, limit) == mem
  {
  }

  /* ----- Programming ----- */

  /** Bytes can be programmed over ones. */
  lemma ProgramOverlay(mem: seq<Byte>, a: nat, bytes: seq<Byte>)
    requires |bytes| == PAGE && a % PAGE == 0 && a + PAGE <= |mem|
    requires mem[a..a + PAGE] == Fill(PAGE)
    ensures Program(mem, a, bytes) == Overlay(mem, a, bytes)
  {
    forall x | 0 <= x < |mem| ensures Program(mem, a, bytes)[x] == Overlay(mem, a, bytes)[x] {
      assert x / PAGE == a / PAGE <==> a <= x < a + PAGE;
      if a <= x < a + PAGE {
        assert mem[x] == mem[a..a + PAGE][x - a];
        assert (x - a) % PAGE == x - a;
        AndOnes(bytes[x - a]);
      }
    }
  }

  /** The pages are the consecutive pieces of `image`, the first at `start`. */
  ghost predicate Spell(pages: seq<Page>, start: nat, image: seq<Byte>) {
    && |image| == PAGE * |pages|
    && forall k :: 0 <= k < |pages| ==>
         pages[k].base == start + PAGE * k && pages[k].bytes == image[PAGE * k..PAGE * k + PAGE]
  }

  lemma SpellFront(pages: seq<Page>, start: nat, image: seq<Byte>)
    requires Spell(pages, start, image) && pages != []
    ensures Spell(pages[..|pages| - 1], start, image[..|image| - PAGE])
    ensures pages[|pages| - 1].base == start + |image| - PAGE
    ensures pages[|pages| - 1].bytes == image[|image| - PAGE..]
  {
    var n, front := |pages| - 1, image[..|image| - PAGE];
    forall k | 0 <= k < n
      ensures pages[k].base == start + PAGE * k && pages[k].bytes == front[PAGE * k..PAGE * k + PAGE]
    {
      assert front[PAGE * k..PAGE * k + PAGE] == image[PAGE * k..PAGE * k + PAGE];
    }
  }

  lemma SpelledWhole(pages: seq<Page>, start: nat, image: seq<Byte>)
    requires Spell(pages, start, image)
    ensures forall p :: p in pages ==> |p.bytes| == PAGE && start <= p.base && p.base + PAGE <= start + |image|
  {
  }

  /** The last page on top of the others. */
  lemma LastPage(mem: seq<Byte>, start: nat, image: seq<Byte>)
    requires |image| >= PAGE && |image| % PAGE == 0 && start % PAGE == 0 && start + |image| <= |mem|
    requires mem[start..start + |image|] == Fill(|image|)
    ensures var front := image[..|image| - PAGE];
            Program(Overlay(mem, start, front), start + |front|, image[|front|..]) == Overlay(mem, start, image)
  {
    var front, last := image[..|image| - PAGE], image[|image| - PAGE..];
    OnesBehind(mem, start, front, |image|);
    ProgramOverlay(Overlay(mem, start, front), start + |front|, last);
    OverlayTwice(mem, start, front, last);
    assert front + last == image;
  }

  lemma OnesBehind(mem: seq<Byte>, start: nat, front: seq<Byte>, n: nat)
    requires |front| <= n && start + n <= |mem| && mem[start..start + n] == Fill(n)
    ensures Overlay(mem, start, front)[start + |front|..start + n] == Fill(n - |front|)
  {
    var piece := Overlay(mem, start, front)[start + |front|..start + n];
    forall i | 0 <= i < n - |front| ensures piece[i] == ONES {
      assert piece[i] == mem[start + |front| + i] == mem[start..start + n][|front| + i];
    }
  }

  lemma ProgramStep(mem: seq<Byte>, mode32: bool, pages: seq<Page>, before: seq<Byte>, a: nat, bytes: seq<Byte>)
    requires pages != [] && forall p :: p in pages ==> |p.bytes| == PAGE
    requires ProgramAll(mem, mode32, pages[..|pages| - 1]) == before
    requires pages[|pages| - 1].base == a && pages[|pages| - 1].bytes == bytes && (!mode32 ==> a < 0x100_0000)
    ensures ProgramAll(mem, mode32, pages) == Program(before, a, bytes)
  {
    assert Target(mode32, a) == a;
  }

  lemma OnesInFront(mem: seq<Byte>, start: nat, n: nat, m: nat)
    requires m <= n && start + n <= |mem| && mem[start..start + n] == Fill(n)
    ensures mem[start..start + m] == Fill(m)
  {
    assert mem[start..start + m] == mem[start..start + n][..m];
  }

  /** Programming the pages of an image over ones puts the image there. */
  lemma {:induction false} ProgramAllOverlay(
      mem: seq<Byte>, mode32: bool, pages: seq<Page>, start: nat, image: seq<Byte>)
    requires Spell(pages, start, image) && start % PAGE == 0 && start + |image| <= |mem|
    requires !mode32 ==> start + |image| <= 0x100_0000
    requires mem[start..start + |image|] == Fill(|image|)
    requires forall p :: p in pages ==> |p.bytes| == PAGE
    ensures ProgramAll(mem, mode32, pages) == Overlay(mem, start, image)
    decreases |pages|
  {
    hide Program, Overlay, Fill, Target;
    if pages == [] {
      NoOverlay(mem, start, image);
    } else {
      SpellFront(pages, start, image);
      OnesInFront(mem, start, |image|, |image| - PAGE);
      ProgramAllOverlay(mem, mode32, pages[..|pages| - 1], start, image[..|image| - PAGE]);
      var before := Overlay(mem, start, image[..|image| - PAGE]);
      ProgramStep(mem, mode32, pages, before, start + |image| - PAGE, image[|image| - PAGE..]);
      LastPage(mem, start, image);
    }
  }

  /* ----- The image of a file ----- */

  /** The bytes of the file, and ones to the end of the last page. */
  function Padded(items: seq<Item>): (image: seq<Byte>)
    ensures |image| == PAGE * |Pages(items)| && |items| <= |image| < |items| + PAGE
    ensures image[..|items|] == Datas(items)
  {
    var n, r := |items| / PAGE, |items| % PAGE;
    assert |items| == PAGE * n + r;
    Datas(items) + Fill(if r == 0 then 0 else PAGE - r)
  }

  /** The pages of a contiguous file are the pieces of its image. */
  lemma PagesSpell(items: seq<Item>, start: nat)
    requires Contiguous(items, start)
    ensures Spell(Pages(items), start, Padded(items))
  {
    forall k | 0 <= k < |Pages(items)|
      ensures Pages(items)[k].base == start + PAGE * k
      ensures Pages(items)[k].bytes == Padded(items)[PAGE * k..PAGE * k + PAGE]
    {
      if k < |items| / PAGE {
        assert Pages(items)[k] == FullPage(items, k);
        assert Datas(items[PAGE * k..PAGE * k + PAGE]) == Padded(items)[PAGE * k..PAGE * k + PAGE];
      } else {
        assert k == |items| / PAGE && PageStart(|items|) == PAGE * k;
        var tail := items[PAGE * k..];
        assert tail[0] == items[PAGE * k];
        assert Datas(tail) + Fill(PAGE - |tail|) == Padded(items)[PAGE * k..PAGE * k + PAGE];
      }
    }
  }

  lemma WholePages(a: nat) returns (pages: nat)
    requires a % SECTOR == 0
    ensures a == PAGE * pages && a % PAGE == 0
  {
    var sectors := a / SECTOR;
    assert a == SECTOR * sectors;
    pages := 0x100 * sectors;
    PageMultiple(pages);
  }

  lemma PageMultiple(pages: nat)
    ensures (PAGE * pages) % PAGE == 0
  {
  }

  lemma PageBound(n: nat, pages: nat, endPages: nat)
    requires n <= PAGE * endPages && PAGE * pages < n + PAGE
    ensures PAGE * pages <= PAGE * endPages
  {
  }

  /** The last page ends inside the erased sectors. */
  lemma PaddedFits(items: seq<Item>, start: nat, size: nat, end: nat)
    requires start % SECTOR == 0 && end % SECTOR == 0 && |items| <= size && start + size <= end
    ensures start % PAGE == 0 && start + |Padded(items)| <= end
  {
    var p := WholePages(start);
    var e := WholePages(end);
    PageBound(start + |items|, p + |Pages(items)|, e);
  }

  lemma ImageErased(mem: seq<Byte>, mode32: bool, start: Word, size: Word, end: nat)
    requires SweepFits(mem, mode32, start, size, end)
    ensures Wrap(start + size) == start + size && SweepEnds(start, Wrap(start + size)) && start <= end
    ensures EraseSweep(mem, mode32, start, Wrap(start + size)) == Overlay(mem, start, Fill(end - start))
  {
    var limit := Wrap(start + size);
    assert limit == start + size;
    EndsInTime(start, limit, end);
    SweepErases(mem, mode32, start, limit, end);
  }

  lemma ImageProgrammed(mem: seq<Byte>, mode32: bool, items: seq<Item>, start: Word, end: nat)
    requires Contiguous(items, start) && start % PAGE == 0 && start + |Padded(items)| <= end <= |mem|
    requires !mode32 ==> end <= 0x100_0000
    ensures forall p :: p in Pages(items) ==> |p.bytes| == PAGE && start <= p.base && p.base + PAGE <= end
    ensures ProgramAll(Overlay(mem, start, Fill(end - start)), mode32, Pages(items))
            == Overlay(mem, start, Datas(items) + Fill(end - start - |items|))
  {
    var image, room := Padded(items), Fill(end - start);
    var erased := Overlay(mem, start, room);
    PagesSpell(items, start);
    SpelledWhole(Pages(items), start, image);
    RoomIsOnes(mem, start, end - start, |image|);
    ProgramAllOverlay(erased, mode32, Pages(items), start, image);
    OverlayOver(mem, start, room, image);
    assert image + room[|image|..] == Datas(items) + Fill(end - start - |items|);
  }

  lemma RoomIsOnes(mem: seq<Byte>, a: nat, n: nat, m: nat)
    requires m <= n && a + n <= |mem|
    ensures Overlay(mem, a, Fill(n))[a..a + m] == Fill(m)
  {
  }

  /**
   * Erase, then write: the bytes of the file, ones from there to the end of the last erased sector, and
   * everything else as it was. Every page programmed lies inside the sectors erased.
   */
  lemma ImageWritten(mem: seq<Byte>, mode32: bool, items: seq<Item>, start: Word, size: Word, end: nat)
    requires SweepFits(mem, mode32, start, size, end) && Contiguous(items, start) && |items| <= size
    ensures SweepEnds(start, Wrap(start + size)) && start + |items| <= end
    ensures forall p :: p in Pages(items) ==> |p.bytes| == PAGE && start <= p.base && p.base + PAGE <= end
    ensures ProgramAll(EraseSweep(mem, mode32, start, Wrap(start + size)), mode32, Pages(items))
            == mem[..start] + (Datas(items) + Fill(end - start - |items|)) + mem[end..]
  {
    hide Pages, EraseSweep, ProgramAll, Padded, SweepEnds, Target;
    PaddedFits(items, start, size, end);
    ImageErased(mem, mode32, start, size, end);
    ImageProgrammed(mem, mode32, items, start, end);
  }

  lemma EndsInTime(start: Word, limit: Word, end: nat)
    requires start % SECTOR == 0 && end % SECTOR == 0 && start <= limit && end - SECTOR < limit <= end
    ensures SweepEnds(start, limit) <==> start == limit || limit <= TWO_32 - SECTOR
  {
  }

  /** Such an image verifies. */
  lemma ImageVerifies(mem: seq<Byte>, mode32: bool, items: seq<Item>, start: nat)
    requires start % PAGE == 0 && Contiguous(items, start) && start + |items| <= |mem|
    requires !mode32 ==> start + |items| <= 0x100_0000
    requires mem[start..start + |items|] == Datas(items)
    ensures Matches(mem, mode32, items)
  {
    forall i | 0 <= i < |items| ensures ReadBack(mem, mode32, items, i) == items[i].data {
      var a := start + PageStart(i);
      assert items[PageStart(i)].address == a && Target(mode32, a) == a;
      assert a + i % PAGE == start + i;
      assert mem[start..start + |items|][i] == Datas(items)[i];
    }
  }

  lemma UsedFits(s: Stream, size: nat)
    ensures |Used(s, size)| <= size
  {
  }

  lemma MiddlePart(a: seq<Byte>, b: seq<Byte>, c: seq<Byte>, d: seq<Byte>)
    ensures (a + (b + c) + d)[|a|..|a| + |b|] == b
  {
  }

  /** Verifying right after erasing and writing succeeds for every size but 0, over whatever the chip held before. */
  lemma LoadedImageVerifies(mem: seq<Byte>, mode32: bool, s: Stream, start: Word, size: Word, end: nat)
    requires SweepFits(mem, mode32, start, size, end)
    requires Complete(s, size) && Contiguous(Used(s, size), start)
    ensures SweepEnds(start, Wrap(start + size))
    ensures forall p :: p in Pages(Used(s, size)) ==> |p.bytes| == PAGE
    ensures var erased := EraseSweep(mem, mode32, start, Wrap(start + size));
            Verified(ProgramAll(erased, mode32, Pages(Used(s, size))), mode32, true, s, size) == True <==> size != 0
  {
    hide Pages, EraseSweep, ProgramAll, SweepEnds, Target, Datas, Fill, Padded, Contiguous, Matches, Used, Complete;
    var items := Used(s, size);
    UsedFits(s, size);
    ImageWritten(mem, mode32, items, start, size, end);
    PaddedFits(items, start, size, end);
    MiddlePart(mem[..start], Datas(items), Fill(end - start - |items|), mem[end..]);
    ImageVerifies(mem[..start] + (Datas(items) + Fill(end - start - |items|)) + mem[end..], mode32, items, start);
  }
}
