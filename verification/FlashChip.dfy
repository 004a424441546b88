/** A NOR flash: erasing sets the bits of a sector, programming clears bits within a page. */
module FlashChip {
  import opened Words

  const PAGE := 0x100
  const SECTOR := 0x1_0000
  const ONES: Byte := 0xFF

  /** Bitwise conjunction. */
  function And(a: nat, b: nat): (c: nat) {
    if a == 0 || b == 0 then 0 else 2 * And(a / 2, b / 2) + (a % 2) * (b % 2)
  }

  lemma {:induction false} AndBound(a: nat, b: nat)
    ensures And(a, b) <= b
  {
    if a != 0 && b != 0 { AndBound(a / 2, b / 2); }
  }

  /** All bits set up to some place. */
  predicate Mask(a: nat) {
    a == 0 || (a % 2 == 1 && Mask(a / 2))
  }

  lemma {:induction false} AndMask(a: nat, b: nat)
    requires Mask(a) && b <= a
    ensures And(a, b) == b
  {
    if b != 0 { AndMask(a / 2, b / 2); }
  }

  lemma AndOnes(b: Byte)
    ensures And(ONES, b) == b
  {
    assert Mask(1) && Mask(3) && Mask(7) && Mask(15) && Mask(31) && Mask(63) && Mask(127) && Mask(255);
    AndMask(ONES, b);
  }

  function AndByte(a: Byte, b: Byte): Byte {
    AndBound(a, b);
    And(a, b)
  }

  /** Timing of the chip: how many status polls each program or erase keeps it busy. */
  type Timing = nat -> nat

  datatype Chip = Chip(
    mem: seq<Byte>,
    busy: nat,        // status polls until ready
    wel: bool,        // write enable latch
    ops: nat,         // programs and erases so far
    clean: bool       // no program, erase or read has come at a wrong moment
  )

  datatype Command = FlagStatus | WriteEnable | SectorErase | PageProgram | PageRead

  /** Commands whose register value carries the write mask. */
  predicate IsWrite(cmd: Command) {
    cmd.SectorErase? || cmd.PageProgram?
  }

  function Erase(mem: seq<Byte>, a: nat): (m: seq<Byte>)
    ensures |m| == |mem|
  {
    seq(|mem|, x requires 0 <= x < |mem| => if x / SECTOR == a / SECTOR then ONES else mem[x])
  }

  /** 256 bytes from `a` on; past the end of the page they go on at its start. */
  function Program(mem: seq<Byte>, a: nat, bytes: seq<Byte>): (m: seq<Byte>)
    requires |bytes| == PAGE
    ensures |m| == |mem|
  {
    seq(|mem|, x requires 0 <= x < |mem| =>
      if x / PAGE == a / PAGE then AndByte(mem[x], bytes[(x - a) % PAGE]) else mem[x])
  }

  /** Outside the chip there is nothing to erase or program, and ones to read. */
  function ByteAt(mem: seq<Byte>, x: nat): Byte {
    if x < |mem| then mem[x] else ONES
  }

  function ReadOut(mem: seq<Byte>, a: nat): (bytes: seq<Byte>)
    ensures |bytes| == PAGE
  {
    seq<Byte>(PAGE, i requires 0 <= i < PAGE => ByteAt(mem, a + i))
  }

  /** A command reaching the chip with address `a` and 256 data bytes beside it. */
  function Execute(c: Chip, cmd: Command, a: nat, bytes: seq<Byte>, timing: Timing): (d: Chip)
    requires |bytes| == PAGE
    ensures |d.mem| == |c.mem|
  {
    match cmd
    case FlagStatus => c.(busy := if c.busy == 0 then 0 else c.busy - 1)
    case WriteEnable => if c.busy == 0 then c.(wel := true) else c
    case SectorErase =>
      if c.busy == 0 && c.wel then
        c.(mem := Erase(c.mem, a), busy := timing(c.ops), wel := false, ops := c.ops + 1)
      else c.(clean := false)
    case PageProgram =>
      if c.busy == 0 && c.wel then
        c.(mem := Program(c.mem, a, bytes), busy := timing(c.ops), wel := false, ops := c.ops + 1)
      else c.(clean := false)
    case PageRead => c.(clean := c.clean && c.busy == 0)
  }

  /* ----- What the chip does, bit by bit ----- */

  function Bit(a: nat, i: nat): (b: nat)
    ensures b < 2
  {
    if i == 0 then a % 2 else Bit(a / 2, i - 1)
  }

  lemma {:induction false} AndBits(a: nat, b: nat, i: nat)
    ensures Bit(And(a, b), i) == Bit(a, i) * Bit(b, i)
    decreases i
  {
    if a == 0 || b == 0 {
      NoBits(i);
    } else {
      var low, high := (a % 2) * (b % 2), And(a / 2, b / 2);
      assert low < 2;
      assert (2 * high + low) % 2 == low && (2 * high + low) / 2 == high;
      if i != 0 { AndBits(a / 2, b / 2, i - 1); }
    }
  }

  lemma {:induction false} NoBits(i: nat)
    ensures Bit(0, i) == 0
  {
    if i != 0 { NoBits(i - 1); }
  }

  /** Programming clears bits of one page and sets none; a place takes the byte of its distance from the address. */
  lemma ProgramClears(mem: seq<Byte>, a: nat, bytes: seq<Byte>, x: nat, i: nat)
    requires |bytes| == PAGE && x < |mem|
    ensures x / 0x100 != a / 0x100 ==> Program(mem, a, bytes)[x] == mem[x]
    ensures x / 0x100 == a / 0x100 ==>
              Bit(Program(mem, a, bytes)[x], i) == Bit(mem[x], i) * Bit(bytes[(x - a) % 0x100], i)
  {
    if x / PAGE == a / PAGE { AndBits(mem[x], bytes[(x - a) % PAGE], i); }
  }

  /** The memory is read as it is, and ones behind its end. */
  lemma ReadOutAt(mem: seq<Byte>, a: nat, i: nat)
    requires i < 0x100
    ensures ReadOut(mem, a)[i] == if a + i < |mem| then mem[a + i] else 0xFF
  {
    assert ReadOut(mem, a)[i] == ByteAt(mem, a + i);
  }

  /** A wrong moment: busy, or not enabled for an erase or a program, which then does nothing else. */
  lemma WrongMoments(c: Chip, cmd: Command, a: nat, bytes: seq<Byte>, timing: Timing)
    requires |bytes| == PAGE
    ensures var d := Execute(c, cmd, a, bytes, timing);
            && (cmd.SectorErase? || cmd.PageProgram? ==>
                  if c.busy == 0 && c.wel then
                    d == Chip(if cmd.SectorErase? then Erase(c.mem, a) else Program(c.mem, a, bytes),
                              timing(c.ops), false, c.ops + 1, c.clean)
                  else !d.clean && d.mem == c.mem && d.ops == c.ops)
            && (cmd.PageRead? ==> (d.clean <==> c.clean && c.busy == 0) && d == c.(clean := d.clean))
            && (cmd.WriteEnable? ==> d == c.(wel := c.wel || c.busy == 0))
            && (cmd.FlagStatus? ==> d == c.(busy := d.busy) && (c.busy > 0 ==> d.busy < c.busy))
  {
  }
}
