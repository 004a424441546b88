/** How the variables of a device are laid out in a register. */
module RegisterLink {
  import opened RegisterBits

  /** A variable and its place; `value` is what the variable is set to. */
  datatype Field = Field(config: bool, bit: nat, mask: Bits, value: Bits)

  /** `direct` is the one-variable form of the link, which checks its field whatever its type. */
  datatype Link = Link(reg: nat, direct: bool, fields: seq<Field>, verify: bool)

  /** One word for all variables, or one word for each. */
  predicate Shaped(l: Link, size: nat) {
    l.fields != [] && (size == 1 || size == |l.fields|) && (l.direct ==> |l.fields| == 1)
  }

  predicate HasConfig(l: Link) {
    exists x :: 0 <= x < |l.fields| && l.fields[x].config
  }

  function Put(w: Bits, f: Field): Bits {
    SetField(w, f.value, f.bit, f.mask)
  }

  function Take(w: Bits, f: Field): Bits {
    GetField(w, f.bit, f.mask)
  }

  function PutAll(fields: seq<Field>, w: Bits): Bits {
    if fields == [] then w else Put(PutAll(fields[..|fields| - 1], w), fields[|fields| - 1])
  }

  /** The register's words with the values of the variables put in. */
  function Applied(l: Link, words: seq<Bits>): (r: seq<Bits>)
    requires Shaped(l, |words|)
    ensures |r| == |words|
  {
    if |words| == 1 then [PutAll(l.fields, words[0])]
    else seq(|words|, x requires 0 <= x < |words| => Put(words[x], l.fields[x]))
  }

  /** The values of the variables as the register has them. */
  function Taken(l: Link, words: seq<Bits>): (vs: seq<Bits>)
    requires Shaped(l, |words|)
    ensures |vs| == |l.fields|
  {
    seq(|l.fields|, x requires 0 <= x < |l.fields| => Take(words[Place(words, x)], l.fields[x]))
  }

  function Place(words: seq<Bits>, x: nat): nat {
    if |words| == 1 then 0 else x
  }

  method VariablesToRegister(l: Link, words: seq<Bits>) returns (newData: seq<Bits>)
    requires Shaped(l, |words|)
    ensures newData == Applied(l, words)
  {
    newData := words;
    if |l.fields| == 1 {
      newData := newData[0 := Put(newData[0], l.fields[0])];
      assert l.fields == [l.fields[0]] && l.fields[..0] == [];
      assert PutAll(l.fields, words[0]) == Put(PutAll(l.fields[..0], words[0]), l.fields[0]);
    } else if |words| == 1 {
      for x := 0 to |l.fields|
        invariant newData == [PutAll(l.fields[..x], words[0])]
      {
        assert l.fields[..x + 1][..x] == l.fields[..x];
        newData := newData[0 := Put(newData[0], l.fields[x])];
      }
      assert l.fields[..|l.fields|] == l.fields;
    } else {
      for x := 0 to |l.fields|
        invariant |newData| == |words|
        invariant forall y :: 0 <= y < x ==> newData[y] == Put(words[y], l.fields[y])
        invariant forall y :: x <= y < |words| ==> newData[y] == words[y]
      {
        newData := newData[x := Put(newData[x], l.fields[x])];
      }
    }
  }

  method RegisterToVariables(l: Link, words: seq<Bits>) returns (values: seq<Bits>)
    requires Shaped(l, |words|)
    ensures values == Taken(l, words)
  {
    values := [];
    for x := 0 to |l.fields|
      invariant values == Taken(l, words)[..x]
    {
      values := values + [Take(words[Place(words, x)], l.fields[x])];
    }
  }

  /* ----- Reading back ----- */

  ghost predicate FieldsDisjoint(fields: seq<Field>) {
    forall x, y :: 0 <= x < y < |fields| ==> Disjoint(fields[x].bit, fields[x].mask, fields[y].bit, fields[y].mask)
  }

  /** What of a variable's value fits into its field. */
  function Kept(f: Field): Bits {
    And(And(f.value, f.mask), Down(ONES, f.bit))
  }

  lemma {:induction false} PutAllReadsBack(fields: seq<Field>, w: Bits, x: nat)
    requires FieldsDisjoint(fields) && x < |fields|
    ensures Take(PutAll(fields, w), fields[x]) == Kept(fields[x])
    decreases |fields|
  {
    var front, last := fields[..|fields| - 1], fields[|fields| - 1];
    var before := PutAll(front, w);
    if x == |fields| - 1 {
      FieldReadsBack(before, last.value, last.bit, last.mask);
    } else {
      PutAllReadsBack(front, w, x);
      FieldBeside(before, fields[x].bit, fields[x].mask, last.value, last.bit, last.mask);
    }
  }

  /** Every variable is read back as what fits of its value, whatever was in the register before. */
  lemma VariablesReadBack(l: Link, words: seq<Bits>, x: nat)
    requires Shaped(l, |words|) && FieldsDisjoint(l.fields) && x < |l.fields|
    ensures Taken(l, Applied(l, words))[x] == Kept(l.fields[x])
  {
    if |words| == 1 {
      PutAllReadsBack(l.fields, words[0], x);
    } else {
      var f := l.fields[x];
      FieldReadsBack(words[x], f.value, f.bit, f.mask);
    }
  }

  /** Bit by bit: inside its field the register gets the variable. */
  lemma AppliedInside(l: Link, words: seq<Bits>, x: nat, i: nat)
    requires Shaped(l, |words|) && FieldsDisjoint(l.fields) && x < |l.fields|
    requires l.fields[x].bit + i < WIDTH && l.fields[x].mask[i]
    ensures Applied(l, words)[if |words| == 1 then 0 else x][l.fields[x].bit + i] == l.fields[x].value[i]
  {
    var f, now := l.fields[x], Applied(l, words);
    VariablesReadBack(l, words, x);
    GetFieldAt(now[Place(now, x)], f.bit, f.mask, i);
    assert Kept(f)[i] == f.value[i];
  }

  lemma {:induction false} PutAllOutside(fields: seq<Field>, w: Bits, j: nat)
    requires j < WIDTH
    requires forall x :: 0 <= x < |fields| ==> !(fields[x].bit <= j && fields[x].mask[j - fields[x].bit])
    ensures PutAll(fields, w)[j] == w[j]
    decreases |fields|
  {
    if fields != [] {
      var n := |fields| - 1;
      PutAllOutside(fields[..n], w, j);
      SetFieldAt(PutAll(fields[..n], w), fields[n].value, fields[n].bit, fields[n].mask, j);
    }
  }

  /** Bits of a word that none of its variables takes stay as they are. */
  lemma AppliedOutside(l: Link, words: seq<Bits>, y: nat, j: nat)
    requires Shaped(l, |words|) && y < |words| && j < WIDTH
    requires forall x :: 0 <= x < |l.fields| && (|words| == 1 || x == y) ==>
               !(l.fields[x].bit <= j && l.fields[x].mask[j - l.fields[x].bit])
    ensures Applied(l, words)[y][j] == words[y][j]
  {
    if |words| == 1 {
      PutAllOutside(l.fields, words[0], j);
    } else {
      SetFieldAt(words[y], l.fields[y].value, l.fields[y].bit, l.fields[y].mask, j);
    }
  }

  /** Bit by bit: what a variable is given by the register. */
  lemma TakenAt(l: Link, words: seq<Bits>, x: nat, i: nat)
    requires Shaped(l, |words|) && x < |l.fields| && i < WIDTH
    ensures var f, w := l.fields[x], words[if |words| == 1 then 0 else x];
            Taken(l, words)[x][i] == (i + f.bit < WIDTH && w[i + f.bit] && f.mask[i])
  {
    GetFieldAt(words[Place(words, x)], l.fields[x].bit, l.fields[x].mask, i);
  }

  /* ----- Verification ----- */

  function ConfigMasks(fields: seq<Field>): Bits {
    if fields == [] then ZERO
    else
      var f := fields[|fields| - 1];
      var front := ConfigMasks(fields[..|fields| - 1]);
      if f.config then Or(front, Up(f.mask, f.bit)) else front
  }

  function VerifyMask(l: Link): Bits {
    if l.direct && l.fields != [] then Up(l.fields[0].mask, l.fields[0].bit) else ConfigMasks(l.fields)
  }

  /** The comparison: under the mask for one word, all bits for more. */
  predicate Agrees(l: Link, words: seq<Bits>, got: seq<Bits>)
    requires |words| == |got|
  {
    if |words| == 1 then GetField(words[0], 0, VerifyMask(l)) == GetField(got[0], 0, VerifyMask(l))
    else words == got
  }

  lemma AndOr(w: Bits, h: Bits, a: Bits, b: Bits)
    ensures And(w, Or(a, b)) == And(h, Or(a, b)) <==> And(w, a) == And(h, a) && And(w, b) == And(h, b)
  {
    if And(w, Or(a, b)) == And(h, Or(a, b)) {
      forall i | 0 <= i < WIDTH ensures And(w, a)[i] == And(h, a)[i] && And(w, b)[i] == And(h, b)[i] {
        assert And(w, Or(a, b))[i] == And(h, Or(a, b))[i];
      }
    }
    if And(w, a) == And(h, a) && And(w, b) == And(h, b) {
      forall i | 0 <= i < WIDTH ensures And(w, Or(a, b))[i] == And(h, Or(a, b))[i] {
        assert And(w, a)[i] == And(h, a)[i] && And(w, b)[i] == And(h, b)[i];
      }
    }
  }

  ghost predicate SameConfig(fields: seq<Field>, w: Bits, h: Bits) {
    forall x :: 0 <= x < |fields| && fields[x].config ==> Take(w, fields[x]) == Take(h, fields[x])
  }

  lemma {:induction false} MaskedSame(fields: seq<Field>, w: Bits, h: Bits)
    ensures And(w, ConfigMasks(fields)) == And(h, ConfigMasks(fields)) <==> SameConfig(fields, w, h)
    decreases |fields|
  {
    if fields == [] {
      assert And(w, ZERO) == ZERO && And(h, ZERO) == ZERO;
    } else {
      var front, f := fields[..|fields| - 1], fields[|fields| - 1];
      MaskedSame(front, w, h);
      assert SameConfig(fields, w, h) <==> SameConfig(front, w, h) && (f.config ==> Take(w, f) == Take(h, f));
      if f.config {
        AndOr(w, h, ConfigMasks(front), Up(f.mask, f.bit));
        SameField(w, h, f.bit, f.mask);
      }
    }
  }

  lemma AtZero(w: Bits, mask: Bits)
    ensures GetField(w, 0, mask) == And(w, mask)
  {
  }

  /** A one-word register passes exactly when all its configuration variables read the same: status bits are free. */
  lemma AgreesExactly(l: Link, w: Bits, h: Bits)
    requires Shaped(l, 1) && (l.direct ==> l.fields[0].config)
    ensures Agrees(l, [w], [h]) <==> SameConfig(l.fields, w, h)
  {
    AtZero(w, VerifyMask(l));
    AtZero(h, VerifyMask(l));
    if l.direct {
      SameField(w, h, l.fields[0].bit, l.fields[0].mask);
    } else {
      MaskedSame(l.fields, w, h);
    }
  }
}
