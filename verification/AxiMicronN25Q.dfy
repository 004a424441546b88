/** The loader of the serial NOR flash: erasing, programming and verifying a PROM file. */
module AxiMicronN25Q {
  import opened Words
  import opened McsFormat
  import opened McsReader
  import opened FlashChip
  import opened FlashPages

  const WORDS := 64

  /** Bytes as the most significant parts of a word; missing ones are zero. */
  function Partial(bs: seq<Byte>): Word
    requires |bs| <= 4
  {
    var a: nat := if |bs| > 0 then bs[0] else 0;
    var b: nat := if |bs| > 1 then bs[1] else 0;
    var c: nat := if |bs| > 2 then bs[2] else 0;
    var d: nat := if |bs| > 3 then bs[3] else 0;
    0x100_0000 * a + 0x1_0000 * b + 0x100 * c + d
  }

  /** `b << (8*(3-k))`. */
  function Shifted(b: Byte, k: nat): nat
    requires k < 4
  {
    var v: nat := b;
    match k
    case 0 => 0x100_0000 * v
    case 1 => 0x1_0000 * v
    case 2 => 0x100 * v
    case 3 => v
  }

  /** `(w >> 8*(3-k)) & 0xFF`. */
  function ByteOf(w: Word, k: nat): Byte
    requires k < 4
  {
    match k
    case 0 => w / 0x100_0000
    case 1 => (w / 0x1_0000) % 0x100
    case 2 => (w / 0x100) % 0x100
    case 3 => w % 0x100
  }

  /** The 256 bytes the 64 data words stand for. */
  function DataBytes(ws: seq<Word>): (bs: seq<Byte>)
    requires |ws| == WORDS
    ensures |bs| == PAGE
  {
    seq(PAGE, i requires 0 <= i < PAGE => ByteOf(ws[i / 4], i % 4))
  }

  lemma ByteOfPartial(bs: seq<Byte>, k: nat)
    requires |bs| == 4 && k < 4
    ensures ByteOf(Partial(bs), k) == bs[k]
  {
    var a: nat, b: nat, c: nat, d: nat := bs[0], bs[1], bs[2], bs[3];
    var w: nat := Partial(bs);
    assert w == 0x100_0000 * a + (0x1_0000 * b + 0x100 * c + d);
    assert w / 0x100_0000 == a;
    assert w / 0x1_0000 == 0x100 * a + b;
    assert w / 0x100 == 0x1_0000 * a + 0x100 * b + c;
  }

  lemma PartialGrows(bs: seq<Byte>, b: Byte)
    requires |bs| < 4
    ensures Partial(bs + [b]) == (if bs == [] then 0 else Partial(bs)) + Shifted(b, |bs|)
  {
  }

  /** Full words spell the page. */
  lemma DataBytesAre(ws: seq<Word>, t: seq<Byte>)
    requires |ws| == WORDS && |t| == PAGE
    requires forall w :: 0 <= w < WORDS ==> ws[w] == Partial(t[4 * w..4 * w + 4])
    ensures DataBytes(ws) == t
  {
    forall i | 0 <= i < PAGE ensures DataBytes(ws)[i] == t[i] {
      var w, k := i / 4, i % 4;
      assert i == 4 * w + k;
      assert t[4 * w..4 * w + 4][k] == t[i];
      ByteOfPartial(t[4 * w..4 * w + 4], k);
    }
  }

  /* ----- Specification of the three passes ----- */

  /** The sweep over `[a, limit)` stops without passing the end of the 32-bit addresses. */
  predicate SweepEnds(a: Word, limit: Word) {
    a >= limit || a % SECTOR + (TWO_32 - SECTOR) >= limit
  }

  lemma SweepStep(a: Word, limit: Word)
    requires a < limit
    ensures SweepEnds(a, limit) ==> a + SECTOR < TWO_32 && SweepEnds(Wrap(a + SECTOR), limit)
    ensures !SweepEnds(a, limit) ==> Wrap(a + SECTOR) < limit && !SweepEnds(Wrap(a + SECTOR), limit)
  {
    assert TWO_32 == 0x1_0000 * SECTOR;
    var q, r := a / SECTOR, a % SECTOR;
    assert a == SECTOR * q + r && q < 0x1_0000;
    if q < 0xFFFF {
      assert Wrap(a + SECTOR) == SECTOR * (q + 1) + r;
    } else {
      assert Wrap(a + SECTOR) == r;
    }
  }

  /** Otherwise the address stays below the limit however often it is advanced. */
  lemma {:induction false} SweepNeverEnds(a: Word, limit: Word, n: nat)
    requires !SweepEnds(a, limit)
    ensures Wrap(a + SECTOR * n) < limit
    decreases n
  {
    SweepStep(a, limit);
    if n == 0 {
      assert Wrap(a + SECTOR * n) == a;
    } else {
      SweepNeverEnds(Wrap(a + SECTOR), limit, n - 1);
      assert (a + SECTOR) % TWO_32 + SECTOR * (n - 1) == a + SECTOR * n - TWO_32 * ((a + SECTOR) / TWO_32);
      WrapShift(a + SECTOR * n, (a + SECTOR) / TWO_32);
    }
  }

  lemma WrapShift(x: int, k: int)
    ensures Wrap(x - TWO_32 * k) == Wrap(x)
  {
  }

  /** The address register as the chip sees it: 24 bits in three-byte mode. */
  function Target(mode32: bool, a: Word): nat {
    if mode32 then a else a % 0x100_0000
  }

  function EraseSweep(mem: seq<Byte>, mode32: bool, a: Word, limit: Word): (m: seq<Byte>)
    requires SweepEnds(a, limit)
    ensures |m| == |mem|
    decreases limit - a
  {
    if a >= limit then mem
    else
      SweepStep(a, limit);
      EraseSweep(Erase(mem, Target(mode32, a)), mode32, a + SECTOR, limit)
  }

  lemma EraseSweepStep(mem: seq<Byte>, mode32: bool, a: Word, limit: Word)
    requires SweepEnds(a, limit) && a < limit
    ensures a + SECTOR < TWO_32 && SweepEnds(a + SECTOR, limit) && Wrap(a + SECTOR) == a + SECTOR
    ensures EraseSweep(mem, mode32, a, limit)
            == EraseSweep(Erase(mem, Target(mode32, a)), mode32, a + SECTOR, limit)
  {
    SweepStep(a, limit);
  }

  function ProgramAll(mem: seq<Byte>, mode32: bool, pages: seq<Page>): (m: seq<Byte>)
    requires forall p :: p in pages ==> |p.bytes| == PAGE
    ensures |m| == |mem|
  {
    if pages == [] then mem
    else
      var n := |pages| - 1;
      Program(ProgramAll(mem, mode32, pages[..n]), Target(mode32, pages[n].base), pages[n].bytes)
  }

  /** The byte read back for the `i`-th byte of the file. */
  function ReadBack(mem: seq<Byte>, mode32: bool, items: seq<Item>, i: nat): Byte
    requires i < |items|
  {
    ByteAt(mem, Target(mode32, items[PageStart(i)].address) + i % PAGE)
  }

  ghost predicate Matches(mem: seq<Byte>, mode32: bool, items: seq<Item>) {
    forall i :: 0 <= i < |items| ==> ReadBack(mem, mode32, items, i) == items[i].data
  }

  /** How a pass over the file ends: its return value, or an exception out of the reader. */
  datatype Outcome = True | False | Exception

  /** The bytes a pass looks at. */
  function Used(s: Stream, promSize: nat): seq<Item> {
    if promSize <= |s.items| then s.items[..promSize] else s.items
  }

  predicate Complete(s: Stream, promSize: nat) {
    promSize <= |s.items| || s.end == FileEnd
  }

  function Aborted(end: ReadResult): Outcome {
    if end == Failed then False else Exception
  }

  /** How a writing pass ends, and the pages it has given out by then. */
  function Written(s: Stream, promSize: nat): (Outcome, seq<Page>) {
    if Complete(s, promSize) then (True, Pages(Used(s, promSize))) else (Aborted(s.end), FullPages(s.items))
  }

  /** Whether the bytes of the file are in the chip, and otherwise how the pass ends. */
  ghost function Verdict(mem: seq<Byte>, mode32: bool, s: Stream, promSize: nat): Outcome {
    if !Matches(mem, mode32, Used(s, promSize)) then False
    else if Complete(s, promSize) then True
    else Aborted(s.end)
  }

  /** What verification returns; a file that is not found is answered with true. */
  ghost function Verified(mem: seq<Byte>, mode32: bool, found: bool, s: Stream, promSize: nat): Outcome {
    if !found then True else if promSize == 0 then False else Verdict(mem, mode32, s, promSize)
  }

  /** What writing returns and gives out. */
  function Programming(found: bool, s: Stream, promSize: nat): (Outcome, seq<Page>) {
    if !found || promSize == 0 then (False, []) else Written(s, promSize)
  }

  /* ----- In numbers ----- */

  /** Three-byte addresses start again after 16 megabytes, four-byte ones are whole. */
  lemma Targets(a: Word)
    ensures Target(true, a) == a
    ensures Target(false, a) < 0x100_0000 && (a - Target(false, a)) % 0x100_0000 == 0
  {
  }

  /** The first byte is the highest of the word. */
  lemma BigEndFirst(a: Byte, b: Byte, c: Byte, d: Byte)
    ensures Partial([a, b, c, d]) == ((a * 0x100 + b) * 0x100 + c) * 0x100 + d
  {
  }

  /** What the writing passes return: true exactly when all bytes asked for were there, and when an error is raised. */
  lemma ProgrammingResult(found: bool, s: Stream, promSize: nat)
    ensures var enough := |s.items| >= promSize || s.end == FileEnd;
            var (out, pages) := Programming(found, s, promSize);
            && (out == True <==> found && promSize != 0 && enough)
            && (out == Exception <==> found && promSize != 0 && !enough && s.end != Failed)
            && (!found || promSize == 0 ==> pages == [])
            && (out == True ==> pages == Pages(if |s.items| > promSize then s.items[..promSize] else s.items))
            && (found && promSize != 0 && !enough ==> pages == FullPages(s.items))
  {
    if |s.items| == promSize { assert s.items[..promSize] == s.items; }
  }

  /** What verifying returns. */
  lemma VerifiedResult(mem: seq<Byte>, mode32: bool, found: bool, s: Stream, promSize: nat)
    ensures var used := if |s.items| > promSize then s.items[..promSize] else s.items;
            var enough := |s.items| >= promSize || s.end == FileEnd;
            var out := Verified(mem, mode32, found, s, promSize);
            && (out == True <==> !found || (promSize != 0 && Matches(mem, mode32, used) && enough))
            && (out == Exception <==>
                  found && promSize != 0 && Matches(mem, mode32, used) && !enough && s.end != Failed)
  {
    if |s.items| == promSize { assert s.items[..promSize] == s.items; }
  }

  /** A byte matches when it stands at its place behind the address of the page it was programmed with. */
  lemma MatchesAt(mem: seq<Byte>, items: seq<Item>, i: nat)
    requires Matches(mem, true, items) && i < |items|
    ensures var x := items[i - i % 0x100].address + i % 0x100;
            items[i].data == if x < |mem| then mem[x] else 0xFF
  {
    assert ReadBack(mem, true, items, i) == items[i].data;
  }

  /** Some address of the sweep lies in the sector of `x`. */
  ghost predicate Swept(mode32: bool, a: Word, limit: Word, x: nat) {
    exists n: nat :: SweptAt(mode32, a, limit, x, n)
  }

  predicate SweptAt(mode32: bool, a: Word, limit: Word, x: nat, n: nat) {
    a + 0x1_0000 * n < limit && Target(mode32, a + 0x1_0000 * n) / 0x1_0000 == x / 0x1_0000
  }

  /** Whatever the start: the sectors of every 65536th address below the limit become ones, and no others. */
  lemma {:induction false} SweepAt(mem: seq<Byte>, mode32: bool, a: Word, limit: Word, x: nat)
    requires SweepEnds(a, limit) && x < |mem|
    ensures EraseSweep(mem, mode32, a, limit)[x] == if Swept(mode32, a, limit, x) then 0xFF else mem[x]
    decreases limit - a
  {
    if a < limit {
      EraseSweepStep(mem, mode32, a, limit);
      var b: Word := a + SECTOR;
      SweepAt(Erase(mem, Target(mode32, a)), mode32, b, limit, x);
      if Swept(mode32, b, limit, x) {
        var n: nat :| SweptAt(mode32, b, limit, x, n);
        assert SweptAt(mode32, a, limit, x, n + 1);
      }
      if Swept(mode32, a, limit, x) {
        var n: nat :| SweptAt(mode32, a, limit, x, n);
        if n > 0 { assert SweptAt(mode32, b, limit, x, n - 1); }
      }
      assert SweptAt(mode32, a, limit, x, 0) <==> Target(mode32, a) / SECTOR == x / SECTOR;
    }
  }
}
