/** The register object. */
module RegisterObject {
  import opened RegisterBits
  import opened ShadowRegister

  class Register {
    const value: array<Bits>
    var stale: bool

    ghost function State(): Shadow
      reads this, value
    {
      Shadow(value[..], stale)
    }

    constructor (size: nat)
      ensures State() == Shadow(seq(size, _ => ZERO), false) && fresh(value)
    {
      value := new Bits[size](_ => ZERO);
      stale := false;
    }

    method SetIndex(index: nat, v: Bits, bit: nat, mask: Bits)
      modifies this, value
      ensures State() == ShadowRegister.SetIndex(old(State()), index, v, bit, mask)
    {
      if index >= value.Length { return; }
      var newVal := value[index];
      newVal := And(newVal, Not(Up(mask, bit)));
      newVal := Or(newVal, Up(And(v, mask), bit));
      if newVal != value[index] {
        value[index] := newVal;
        stale := true;
      }
    }

    method GetIndex(index: nat, bit: nat, mask: Bits) returns (v: Bits)
      ensures v == ShadowRegister.GetIndex(State(), index, bit, mask)
    {
      if index >= value.Length { return ONES; }
      v := And(Down(value[index], bit), mask);
    }

    method SetData(data: seq<Bits>)
      requires |data| == value.Length
      modifies this, value
      ensures State() == ShadowRegister.SetData(old(State()), data)
    {
      if data != value[..] { stale := true; }
      forall i | 0 <= i < |data| {
        value[i] := data[i];
      }
      assert value[..] == data;
    }

    method SetStale()
      modifies this`stale
      ensures State() == old(State()).(stale := true)
    {
      stale := true;
    }

    method ClrStale()
      modifies this`stale
      ensures State() == old(State()).(stale := false)
    {
      stale := false;
    }
  }
}
