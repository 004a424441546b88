/** The driver's copy of a register, with the flag that says the hardware has not been told yet. */
module ShadowRegister {
  import opened RegisterBits

  datatype Shadow = Shadow(words: seq<Bits>, stale: bool)

  function SetIndex(r: Shadow, index: nat, value: Bits, bit: nat, mask: Bits): (s: Shadow)
    ensures |s.words| == |r.words|
    ensures s.words != r.words ==> s.stale
    ensures s.words == r.words ==> s == r
  {
    if index >= |r.words| then r
    else
      var newVal := SetField(r.words[index], value, bit, mask);
      if newVal == r.words[index] then r else Shadow(r.words[index := newVal], true)
  }

  /** Words beyond the register read as ones. */
  function GetIndex(r: Shadow, index: nat, bit: nat, mask: Bits): (w: Bits)
    ensures index >= |r.words| ==> forall i :: 0 <= i < WIDTH ==> w[i]
  {
    if index >= |r.words| then ONES else GetField(r.words[index], bit, mask)
  }

  function SetData(r: Shadow, data: seq<Bits>): Shadow
    requires |data| == |r.words|
  {
    Shadow(data, r.stale || data != r.words)
  }

  /** A field of a word of the register reads back, every field beside it or in another word is untouched. */
  lemma IndexReadsBack(r: Shadow, index: nat, value: Bits, bit: nat, mask: Bits, index2: nat, bit2: nat, mask2: Bits)
    requires index < |r.words|
    ensures GetIndex(SetIndex(r, index, value, bit, mask), index, bit, mask) == And(And(value, mask), Down(ONES, bit))
    ensures index2 != index || Disjoint(bit2, mask2, bit, mask) ==>
              GetIndex(SetIndex(r, index, value, bit, mask), index2, bit2, mask2) == GetIndex(r, index2, bit2, mask2)
  {
    FieldReadsBack(r.words[index], value, bit, mask);
    if Disjoint(bit2, mask2, bit, mask) { FieldBeside(r.words[index], bit2, mask2, value, bit, mask); }
  }
}
