/** Bytes, 32-bit words and their in-memory (little-endian) layout. */
module Words {

  const TWO_8 := 0x100
  const TWO_28 := 0x1000_0000
  const TWO_32 := 0x1_0000_0000

  type Byte = b: int | 0 <= b < TWO_8
  type Word = w: int | 0 <= w < TWO_32

  /** A value stored into a `uint32_t`. */
  function Wrap(x: int): Word {
    x % TWO_32
  }

  /** `mem` with `items` put in at `a`. */
  function Overlay<T>(mem: seq<T>, a: nat, items: seq<T>): (m: seq<T>)
    requires a + |items| <= |mem|
    ensures |m| == |mem|
  {
    mem[..a] + items + mem[a + |items|..]
  }

  lemma OverlayTwice<T>(mem: seq<T>, a: nat, front: seq<T>, back: seq<T>)
    requires a + |front| + |back| <= |mem|
    ensures Overlay(Overlay(mem, a, front), a + |front|, back) == Overlay(mem, a, front + back)
  {
  }

  lemma NoOverlay<T>(mem: seq<T>, a: nat, none: seq<T>)
    requires none == [] && a <= |mem|
    ensures Overlay(mem, a, none) == mem
  {
  }

  /** Stepping round a ring of `n` slots. */
  lemma NextSlot(i: nat, n: nat)
    requires i < n
    ensures (i + 1) % n == if i + 1 == n then 0 else i + 1
  {
  }

  /** The four bytes `write` sends for the word stored at an address. */
  function WordBytes(w: Word): (bs: seq<Byte>)
    ensures |bs| == 4
  {
    [w % 0x100, (w / 0x100) % 0x100, (w / 0x1_0000) % 0x100, w / 0x100_0000]
  }

  function BytesWord(bs: seq<Byte>): Word
    requires |bs| == 4
  {
    var a: int, b: int, c: int, d: int := bs[0], bs[1], bs[2], bs[3];
    a + 0x100 * b + 0x1_0000 * c + 0x100_0000 * d
  }

  /** The first byte is the lowest of the word. */
  lemma LowByteFirst(a: Byte, b: Byte, c: Byte, d: Byte)
    ensures BytesWord([a, b, c, d]) == ((d * 0x100 + c) * 0x100 + b) * 0x100 + a
  {
  }

  lemma WordBytesInverse(w: Word)
    ensures BytesWord(WordBytes(w)) == w
  {
    var a, b, c := w / 0x100, w / 0x1_0000, w / 0x100_0000;
    assert w == 0x100 * a + w % 0x100;
    assert a / 0x100 == b && a == 0x100 * b + a % 0x100;
    assert b / 0x100 == c && b == 0x100 * c + b % 0x100;
  }

  function WordsBytes(ws: seq<Word>): (bs: seq<Byte>)
    ensures |bs| == 4 * |ws|
  {
    if ws == [] then [] else WordBytes(ws[0]) + WordsBytes(ws[1..])
  }

  function BytesWords(bs: seq<Byte>): (ws: seq<Word>)
    requires |bs| % 4 == 0
    ensures 4 * |ws| == |bs|
  {
    if bs == [] then [] else [BytesWord(bs[..4])] + BytesWords(bs[4..])
  }

  lemma {:induction false} WordsBytesInverse(ws: seq<Word>)
    ensures BytesWords(WordsBytes(ws)) == ws
  {
    if ws != [] {
      var head, tail := WordBytes(ws[0]), WordsBytes(ws[1..]);
      assert (head + tail)[..4] == head && (head + tail)[4..] == tail;
      WordBytesInverse(ws[0]);
      WordsBytesInverse(ws[1..]);
    }
  }
}
