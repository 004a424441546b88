/** 32-bit register words as their bits, lowest first, and the fields in them. */
module RegisterBits {

  const WIDTH := 32

  type Bits = s: seq<bool> | |s| == WIDTH witness seq(WIDTH, _ => false)

  /** The word with the bits `f`. */
  function Make(f: nat -> bool): (w: Bits)
    ensures forall i :: 0 <= i < WIDTH ==> w[i] == f(i)
  {
    seq(WIDTH, i requires 0 <= i < WIDTH => f(i))
  }

  const ONES: Bits := Make(_ => true)
  const ZERO: Bits := Make(_ => false)

  /** `x & y`. */
  function And(x: Bits, y: Bits): Bits {
    Make((i: nat) => i < WIDTH && x[i] && y[i])
  }

  /** `x | y`. */
  function Or(x: Bits, y: Bits): Bits {
    Make((i: nat) => i < WIDTH && (x[i] || y[i]))
  }

  /** `0xFFFFFFFF ^ x`. */
  function Not(x: Bits): Bits {
    Make((i: nat) => i < WIDTH && !x[i])
  }

  /** `x << n`. */
  function Up(x: Bits, n: nat): Bits {
    Make((i: nat) => n <= i < WIDTH && x[i - n])
  }

  /** `x >> n`. */
  function Down(x: Bits, n: nat): Bits {
    Make((i: nat) => i + n < WIDTH && x[i + n])
  }

  /** Replace the field of `mask` at `bit`. */
  function SetField(w: Bits, value: Bits, bit: nat, mask: Bits): Bits {
    Or(And(w, Not(Up(mask, bit))), Up(And(value, mask), bit))
  }

  function GetField(w: Bits, bit: nat, mask: Bits): Bits {
    And(Down(w, bit), mask)
  }

  predicate Disjoint(bit1: nat, mask1: Bits, bit2: nat, mask2: Bits) {
    And(Up(mask1, bit1), Up(mask2, bit2)) == ZERO
  }

  /** Bit by bit: inside the field the value, outside the old word. */
  lemma SetFieldAt(w: Bits, value: Bits, bit: nat, mask: Bits, i: nat)
    requires i < WIDTH
    ensures SetField(w, value, bit, mask)[i] == if i >= bit && mask[i - bit] then value[i - bit] else w[i]
  {
  }

  lemma GetFieldAt(w: Bits, bit: nat, mask: Bits, i: nat)
    requires i < WIDTH
    ensures GetField(w, bit, mask)[i] == (i + bit < WIDTH && w[i + bit] && mask[i])
  {
  }

  lemma DisjointAt(bit1: nat, mask1: Bits, bit2: nat, mask2: Bits, i: nat)
    requires Disjoint(bit1, mask1, bit2, mask2) && i < WIDTH
    ensures !(i >= bit1 && mask1[i - bit1] && i >= bit2 && mask2[i - bit2])
  {
    assert And(Up(mask1, bit1), Up(mask2, bit2))[i] == ZERO[i];
  }

  /** Two words read the same through a field exactly when they agree under its mask. */
  lemma SameField(w: Bits, h: Bits, bit: nat, mask: Bits)
    ensures GetField(w, bit, mask) == GetField(h, bit, mask)
            <==> And(w, Up(mask, bit)) == And(h, Up(mask, bit))
  {
    var m := Up(mask, bit);
    if GetField(w, bit, mask) == GetField(h, bit, mask) {
      forall i | 0 <= i < WIDTH ensures And(w, m)[i] == And(h, m)[i] {
        if i >= bit {
          GetFieldAt(w, bit, mask, i - bit);
          GetFieldAt(h, bit, mask, i - bit);
        }
      }
    }
    if And(w, m) == And(h, m) {
      forall i | 0 <= i < WIDTH ensures GetField(w, bit, mask)[i] == GetField(h, bit, mask)[i] {
        GetFieldAt(w, bit, mask, i);
        GetFieldAt(h, bit, mask, i);
        if i + bit < WIDTH { assert And(w, m)[i + bit] == And(h, m)[i + bit]; }
      }
    }
  }

  /** A field reads back as the part of the value that the mask and the word have room for. */
  lemma FieldReadsBack(w: Bits, value: Bits, bit: nat, mask: Bits)
    ensures GetField(SetField(w, value, bit, mask), bit, mask) == And(And(value, mask), Down(ONES, bit))
  {
    forall i | 0 <= i < WIDTH
      ensures GetField(SetField(w, value, bit, mask), bit, mask)[i] == And(And(value, mask), Down(ONES, bit))[i]
    {
      GetFieldAt(SetField(w, value, bit, mask), bit, mask, i);
      if i + bit < WIDTH { SetFieldAt(w, value, bit, mask, i + bit); }
    }
  }

  /** Writing one field leaves the fields beside it as they read. */
  lemma FieldBeside(w: Bits, bit: nat, mask: Bits, value2: Bits, bit2: nat, mask2: Bits)
    requires Disjoint(bit, mask, bit2, mask2)
    ensures GetField(SetField(w, value2, bit2, mask2), bit, mask) == GetField(w, bit, mask)
  {
    var v := SetField(w, value2, bit2, mask2);
    forall i | 0 <= i < WIDTH ensures GetField(v, bit, mask)[i] == GetField(w, bit, mask)[i] {
      GetFieldAt(v, bit, mask, i);
      GetFieldAt(w, bit, mask, i);
      if i + bit < WIDTH {
        SetFieldAt(w, value2, bit2, mask2, i + bit);
        DisjointAt(bit, mask, bit2, mask2, i + bit);
      }
    }
  }

  /** Writes to disjoint fields commute. */
  lemma FieldsCommute(w: Bits, v1: Bits, bit1: nat, mask1: Bits, v2: Bits, bit2: nat, mask2: Bits)
    requires Disjoint(bit1, mask1, bit2, mask2)
    ensures SetField(SetField(w, v1, bit1, mask1), v2, bit2, mask2)
            == SetField(SetField(w, v2, bit2, mask2), v1, bit1, mask1)
  {
    var a, b := SetField(w, v1, bit1, mask1), SetField(w, v2, bit2, mask2);
    forall i | 0 <= i < WIDTH ensures SetField(a, v2, bit2, mask2)[i] == SetField(b, v1, bit1, mask1)[i] {
      SetFieldAt(w, v1, bit1, mask1, i);
      SetFieldAt(w, v2, bit2, mask2, i);
      SetFieldAt(a, v2, bit2, mask2, i);
      SetFieldAt(b, v1, bit1, mask1, i);
      DisjointAt(bit1, mask1, bit2, mask2, i);
    }
  }
}
