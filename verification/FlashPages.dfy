/** From the bytes of a PROM file to the 256-byte pages that are programmed. */
module FlashPages {
  import opened Words
  import opened McsReader
  import opened FlashChip

  datatype Page = Page(base: Word, bytes: seq<Byte>)

  function Datas(items: seq<Item>): (bs: seq<Byte>)
    ensures |bs| == |items|
  {
    seq(|items|, i requires 0 <= i < |items| => items[i].data)
  }

  function Fill(n: nat): (bs: seq<Byte>)
    ensures |bs| == n
  {
    seq(n, _ => ONES)
  }

  /** Where the page that byte `n` belongs to begins. */
  function PageStart(n: nat): nat {
    n - n % PAGE
  }

  function FullPage(items: seq<Item>, k: nat): (p: Page)
    requires PAGE * k + PAGE <= |items|
    ensures |p.bytes| == PAGE
  {
    Page(items[PAGE * k].address, Datas(items[PAGE * k..PAGE * k + PAGE]))
  }

  /** The pages filled by the first bytes of a file. */
  function FullPages(items: seq<Item>): seq<Page> {
    seq(|items| / PAGE, k requires 0 <= k < |items| / PAGE => FullPage(items, k))
  }

  /** The last, partly filled page, padded with ones. */
  function TailPage(items: seq<Item>): seq<Page> {
    var tail := items[PageStart(|items|)..];
    if tail == [] then [] else [Page(tail[0].address, Datas(tail) + Fill(PAGE - |tail|))]
  }

  function Pages(items: seq<Item>): seq<Page> {
    FullPages(items) + TailPage(items)
  }

  lemma FullPagesGrow(items: seq<Item>, item: Item)
    ensures FullPages(items + [item])
            == FullPages(items)
               + if (|items| + 1) % PAGE == 0 then
                   var tail := items[PageStart(|items|)..] + [item];
                   [Page(tail[0].address, Datas(tail))]
                 else []
  {
    var more := items + [item];
    var n := |items| / PAGE;
    forall k | 0 <= k < n ensures FullPage(more, k) == FullPage(items, k) {
      assert more[PAGE * k..PAGE * k + PAGE] == items[PAGE * k..PAGE * k + PAGE];
    }
    if |more| % PAGE == 0 {
      assert PageStart(|items|) == PAGE * n;
      assert more[PAGE * n..PAGE * n + PAGE] == items[PAGE * n..] + [item];
    }
  }

  /** The `k`-th of the whole pages: 256 bytes, at the address of the first of them. */
  lemma FullPagesAre(items: seq<Item>, k: nat, i: nat)
    requires k < |items| / 0x100 && i < 0x100
    ensures |FullPages(items)| == |items| / 0x100 && |FullPages(items)[k].bytes| == 0x100
    ensures 0x100 * k + i < |items| && FullPages(items)[k].base == items[0x100 * k].address
    ensures FullPages(items)[k].bytes[i] == items[0x100 * k + i].data
  {
    assert FullPages(items)[k] == FullPage(items, k);
    assert items[PAGE * k..PAGE * k + PAGE][i] == items[PAGE * k + i];
  }
}
