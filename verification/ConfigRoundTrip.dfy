/** Which variables a dump restores when it is loaded again. */
module ConfigRoundTrip {
  import opened DeviceTree
  import opened Options

  /** One level down the tree: the instance `index` of a device type. */
  datatype Step = Step(group: string, index: nat)
  type Path = seq<Step>

  function At(d: Device, p: Path): Option<Device>
    decreases |p|
  {
    if p == [] then Some(d)
    else
      var k := GroupIndex(d.groups, p[0].group);
      if k == -1 || p[0].index >= |d.groups[k].members| then None
      else
        match d.groups[k].members[p[0].index]
        case Vacant => None
        case Occupied(dev) => At(dev, p[1..])
  }

  function VarAt(d: Device, p: Path, v: string): Option<Variable> {
    match At(d, p)
    case None => None
    case Some(dev) =>
      var k := VarIndex(dev.vars, v);
      if k == -1 then None else Some(dev.vars[k])
  }

  function ValueAt(d: Device, p: Path, v: string): Option<string> {
    match VarAt(d, p, v)
    case None => None
    case Some(x) => Some(x.value)
  }

  /** Keys of a map: names are distinct, and no variable is called like a device type. */
  ghost predicate LocallyKeyed(d: Device) {
    && (forall i, j :: 0 <= i < j < |d.vars| ==> d.vars[i].name != d.vars[j].name)
    && (forall i, j :: 0 <= i < j < |d.groups| ==> d.groups[i].name != d.groups[j].name)
    && (forall i :: 0 <= i < |d.vars| ==> GroupIndex(d.groups, d.vars[i].name) == -1)
  }

  ghost predicate Keyed(d: Device) {
    forall p: Path :: At(d, p).Some? ==> LocallyKeyed(At(d, p).value)
  }

  lemma KeyedBelow(d: Device, k: nat, i: nat)
    requires Keyed(d) && k < |d.groups| && i < |d.groups[k].members| && d.groups[k].members[i].Occupied?
    ensures GroupIndex(d.groups, d.groups[k].name) == k
    ensures Keyed(d.groups[k].members[i].dev)
  {
    var dev := d.groups[k].members[i].dev;
    assert At(d, []) == Some(d);
    forall p: Path | At(dev, p).Some?
      ensures LocallyKeyed(At(dev, p).value)
    {
      var q := [Step(d.groups[k].name, i)] + p;
      assert q[1..] == p && At(d, q) == At(dev, p);
    }
  }

  /* ----- The last value a list of elements gives to one variable ----- */

  function Effect(xs: seq<Xml>, p: Path, v: string): Option<string>
    decreases |p|, |xs|
  {
    if xs == [] then None
    else
      var later := Effect(xs[1..], p, v);
      if later.Some? then later
      else if p == [] then (if xs[0].name == v then Some(xs[0].text) else None)
      else if xs[0].name == p[0].group && (xs[0].index == None || xs[0].index == Some(p[0].index)) then
        Effect(xs[0].children, p[1..], v)
      else None
  }

  function Over(earlier: Option<string>, later: Option<string>): Option<string> {
    if later.Some? then later else earlier
  }

  lemma {:induction false} EffectConcat(xs: seq<Xml>, ys: seq<Xml>, p: Path, v: string)
    ensures Effect(xs + ys, p, v) == Over(Effect(xs, p, v), Effect(ys, p, v))
  {
    if xs == [] {
      assert xs + ys == ys;
    } else {
      assert (xs + ys)[1..] == xs[1..] + ys;
      EffectConcat(xs[1..], ys, p, v);
    }
  }

  /* ----- Loading ----- */

  lemma LoadKeepsNames(d: Device, x: Xml)
    ensures |LoadOne(d, x).vars| == |d.vars| && |LoadOne(d, x).groups| == |d.groups|
    ensures forall i :: 0 <= i < |d.vars| ==> LoadOne(d, x).vars[i] == d.vars[i].(value := LoadOne(d, x).vars[i].value)
    ensures forall i :: 0 <= i < |d.groups| ==> LoadOne(d, x).groups[i].name == d.groups[i].name
  {
  }

  lemma {:induction false} SameVarIndex(a: seq<Variable>, b: seq<Variable>, v: string)
    requires |a| == |b| && forall i :: 0 <= i < |a| ==> a[i].name == b[i].name
    ensures VarIndex(a, v) == VarIndex(b, v)
  {
    if a != [] {
      assert forall i :: 0 <= i < |a| - 1 ==> a[1..][i] == a[i + 1] && b[1..][i] == b[i + 1];
      SameVarIndex(a[1..], b[1..], v);
    }
  }

  lemma {:induction false} SameGroupIndex(a: seq<Group>, b: seq<Group>, v: string)
    requires |a| == |b| && forall i :: 0 <= i < |a| ==> a[i].name == b[i].name
    ensures GroupIndex(a, v) == GroupIndex(b, v)
  {
    if a != [] {
      assert forall i :: 0 <= i < |a| - 1 ==> a[1..][i] == a[i + 1] && b[1..][i] == b[i + 1];
      SameGroupIndex(a[1..], b[1..], v);
    }
  }

  /** Loaded devices differ from the old ones in variable values alone. */
  ghost predicate SameLocally(a: Device, b: Device) {
    && |a.vars| == |b.vars| && |a.groups| == |b.groups|
    && (forall i :: 0 <= i < |a.vars| ==> b.vars[i] == a.vars[i].(value := b.vars[i].value))
    && (forall i :: 0 <= i < |a.groups| ==> a.groups[i].name == b.groups[i].name)
  }

  lemma {:induction false} LoadOneAt(d: Device, x: Xml, p: Path)
    ensures At(LoadOne(d, x), p).Some? <==> At(d, p).Some?
    ensures At(d, p).Some? ==> SameLocally(At(d, p).value, At(LoadOne(d, x), p).value)
    decreases |p|, 0
  {
    var e := LoadOne(d, x);
    LoadKeepsNames(d, x);
    if p != [] {
      SameGroupIndex(d.groups, e.groups, p[0].group);
      var k := GroupIndex(d.groups, p[0].group);
      if k != -1 && k == GroupIndex(d.groups, x.name) && p[0].index < |d.groups[k].members| {
        var m, i := d.groups[k].members, p[0].index;
        assert |e.groups[k].members| == |m| && e.groups[k].members[i] == LoadSlot(m[i], i, x);
        if m[i].Occupied? && (x.index == None || x.index == Some(i)) {
          LoadAt(m[i].dev, x.children, p[1..]);
        }
      }
    }
  }

  lemma {:induction false} LoadAt(d: Device, xs: seq<Xml>, p: Path)
    ensures At(Load(d, xs), p).Some? <==> At(d, p).Some?
    ensures At(d, p).Some? ==> SameLocally(At(d, p).value, At(Load(d, xs), p).value)
    decreases |p|, 1, |xs|
  {
    if xs != [] {
      LoadOneAt(d, xs[0], p);
      LoadAt(LoadOne(d, xs[0]), xs[1..], p);
    }
  }

  /** No device type on the spot bears the variable's name. */
  predicate Reachable(d: Device, p: Path, v: string) {
    VarAt(d, p, v).Some? && GroupIndex(At(d, p).value.groups, v) == -1
  }

  lemma ReachableKept(d: Device, e: Device, p: Path, v: string)
    requires At(d, p).Some? && At(e, p).Some? && SameLocally(At(d, p).value, At(e, p).value)
    ensures VarAt(e, p, v).Some? <==> VarAt(d, p, v).Some?
    ensures Reachable(e, p, v) <==> Reachable(d, p, v)
  {
    SameVarIndex(At(d, p).value.vars, At(e, p).value.vars, v);
    SameGroupIndex(At(d, p).value.groups, At(e, p).value.groups, v);
  }

  lemma {:induction false} LoadOneValue(d: Device, x: Xml, p: Path, v: string)
    requires Reachable(d, p, v)
    ensures ValueAt(LoadOne(d, x), p, v) == Over(ValueAt(d, p, v), Effect([x], p, v))
    decreases |p|, 0
  {
    var e := LoadOne(d, x);
    LoadKeepsNames(d, x);
    if p == [] {
      SameVarIndex(d.vars, e.vars, v);
    } else {
      SameGroupIndex(d.groups, e.groups, p[0].group);
      var k, i := GroupIndex(d.groups, p[0].group), p[0].index;
      var dev := d.groups[k].members[i].dev;
      if k == GroupIndex(d.groups, x.name) {
        assert e.groups[k].members[i] == LoadSlot(d.groups[k].members[i], i, x);
        if x.index == None || x.index == Some(i) {
          LoadValue(dev, x.children, p[1..], v);
        }
      }
    }
  }

  /** Loading gives a variable the last value addressed to it, or leaves it alone. */
  lemma {:induction false} LoadValue(d: Device, xs: seq<Xml>, p: Path, v: string)
    requires Reachable(d, p, v)
    ensures ValueAt(Load(d, xs), p, v) == Over(ValueAt(d, p, v), Effect(xs, p, v))
    decreases |p|, 1, |xs|
  {
    if xs != [] {
      var e := LoadOne(d, xs[0]);
      LoadOneAt(d, xs[0], p);
      ReachableKept(d, e, p, v);
      LoadOneValue(d, xs[0], p, v);
      LoadValue(e, xs[1..], p, v);
      assert [xs[0]] + xs[1..] == xs;
      EffectConcat([xs[0]], xs[1..], p, v);
    }
  }

  /* ----- What a dump says ----- */

  /** What a dump is for: no status, nothing kept out of it, and hidden variables at the top or when asked for. */
  predicate Belongs(v: Variable, top: bool, hidden: bool) {
    v.kind != Status && !v.noConfig && (v.hidden ==> top || hidden)
  }

  /** The value the common pass prints for a variable: that of its type's representative. */
  function CommonValue(d: Device, top: bool, hidden: bool, p: Path, v: string): Option<string>
    decreases |p|
  {
    if p == [] then
      var k := VarIndex(d.vars, v);
      if k != -1 && Belongs(d.vars[k], top, hidden) then Some(d.vars[k].value) else None
    else
      var k := GroupIndex(d.groups, p[0].group);
      if k == -1 then None
      else
        var r := Representative(d.groups[k].members);
        if r == -1 then None else CommonValue(d.groups[k].members[r].dev, false, hidden, p[1..], v)
  }

  /** The value the pass over all instances prints for a variable: its own, if it is per-instance. */
  function InstanceValue(d: Device, top: bool, hidden: bool, p: Path, v: string): Option<string>
    decreases |p|
  {
    match VarAt(d, p, v)
    case None => None
    case Some(x) => if Belongs(x, top && p == [], hidden) && x.perInstance then Some(x.value) else None
  }

  lemma {:induction false} VarElemsEffect(
      vars: seq<Variable>, top: bool, common: bool, hidden: bool, p: Path, v: string)
    requires forall i, j :: 0 <= i < j < |vars| ==> vars[i].name != vars[j].name
    ensures var k := VarIndex(vars, v);
            Effect(VarElems(vars, top, common, hidden), p, v)
            == if p == [] && k != -1 && Printed(vars[k], top, common, hidden) then Some(vars[k].value) else None
  {
    if vars != [] {
      var n := |vars| - 1;
      VarElemsEffect(vars[..n], top, common, hidden, p, v);
      EffectConcat(VarElems(vars[..n], top, common, hidden),
                   if Printed(vars[n], top, common, hidden) then [Elem(vars[n].name, None, vars[n].value, [])] else [],
                   p, v);
      PrefixVarIndex(vars, v);
    }
  }

  lemma {:induction false} PrefixVarIndex(vars: seq<Variable>, v: string)
    requires vars != []
    requires forall i, j :: 0 <= i < j < |vars| ==> vars[i].name != vars[j].name
    ensures var n := |vars| - 1;
            VarIndex(vars, v) == if vars[n].name == v then n else VarIndex(vars[..n], v)
  {
    var n := |vars| - 1;
    var k, j := VarIndex(vars, v), VarIndex(vars[..n], v);
    if k != -1 && k < n {
      assert vars[..n][k].name == v;
      assert j != -1 && vars[j].name == v;
    }
  }

  lemma TaggedEffect(name: string, index: Option<nat>, inner: seq<Xml>, p: Path, v: string)
    requires p == [] ==> name != v
    ensures Effect(Tagged(name, index, inner), p, v)
            == if p != [] && name == p[0].group && (index == None || index == Some(p[0].index))
               then Effect(inner, p[1..], v) else None
  {
    if inner != [] {
      var x := Elem(name, index, LINE_END, inner);
      assert [x][1..] == [] && Effect([x][1..], p, v) == None;
    }
  }

  lemma {:induction false} MembersEffect(g: Group, n: nat, hidden: bool, p: Path, v: string)
    requires n <= |g.members| && (p == [] ==> g.name != v)
    ensures Effect(MemberElems(g, n, hidden), p, v)
            == if p != [] && p[0].group == g.name && p[0].index < n && g.members[p[0].index].Occupied?
               then Effect(Dump(g.members[p[0].index].dev, false, false, hidden), p[1..], v) else None
    decreases n
  {
    if n != 0 {
      MembersEffect(g, n - 1, hidden, p, v);
      match g.members[n - 1]
      case Vacant => EffectConcat(MemberElems(g, n - 1, hidden), [], p, v);
      case Occupied(dev) =>
        var inner := Dump(dev, false, false, hidden);
        TaggedEffect(g.name, Some(n - 1), inner, p, v);
        EffectConcat(MemberElems(g, n - 1, hidden), Tagged(g.name, Some(n - 1), inner), p, v);
    }
  }

  /** What the elements of one device type address. */
  function GroupEffect(g: Group, common: bool, hidden: bool, p: Path, v: string): Option<string>
    requires p != []
  {
    if common then
      var r := Representative(g.members);
      if r == -1 then None else Effect(Dump(g.members[r].dev, false, true, hidden), p[1..], v)
    else if p[0].index < |g.members| && g.members[p[0].index].Occupied? then
      Effect(Dump(g.members[p[0].index].dev, false, false, hidden), p[1..], v)
    else None
  }

  lemma {:induction false} GroupsEffect(d: Device, n: nat, common: bool, hidden: bool, p: Path, v: string)
    requires n <= |d.groups| && LocallyKeyed(d)
    requires p == [] ==> GroupIndex(d.groups, v) == -1
    ensures var k := if p == [] then -1 else GroupIndex(d.groups, p[0].group);
            Effect(GroupElems(d, n, common, hidden), p, v)
            == if 0 <= k < n then GroupEffect(d.groups[k], common, hidden, p, v) else None
    decreases n
  {
    if n != 0 {
      var g := d.groups[n - 1];
      GroupsEffect(d, n - 1, common, hidden, p, v);
      var these := if common then CommonElems(g, hidden) else MemberElems(g, |g.members|, hidden);
      EffectConcat(GroupElems(d, n - 1, common, hidden), these, p, v);
      if common {
        var r := Representative(g.members);
        if r != -1 { TaggedEffect(g.name, None, Dump(g.members[r].dev, false, true, hidden), p, v); }
      } else {
        MembersEffect(g, |g.members|, hidden, p, v);
      }
    }
  }

  lemma DumpEffect(d: Device, top: bool, common: bool, hidden: bool, p: Path, v: string)
    requires LocallyKeyed(d) && (p == [] ==> GroupIndex(d.groups, v) == -1)
    ensures var k := if p == [] then VarIndex(d.vars, v) else GroupIndex(d.groups, p[0].group);
            Effect(Dump(d, top, common, hidden), p, v)
            == if k == -1 then None
               else if p == [] then (if Printed(d.vars[k], top, common, hidden) then Some(d.vars[k].value) else None)
               else GroupEffect(d.groups[k], common, hidden, p, v)
  {
    VarElemsEffect(d.vars, top, common, hidden, p, v);
    GroupsEffect(d, |d.groups|, common, hidden, p, v);
    EffectConcat(VarElems(d.vars, top, common, hidden), GroupElems(d, |d.groups|, common, hidden), p, v);
  }

  /** No device along the way to the representatives has a type called like the variable. */
  predicate Unambiguous(d: Device, p: Path, v: string)
    decreases |p|
  {
    if p == [] then GroupIndex(d.groups, v) == -1
    else
      var k := GroupIndex(d.groups, p[0].group);
      k != -1 ==>
        var r := Representative(d.groups[k].members);
        r != -1 ==> Unambiguous(d.groups[k].members[r].dev, p[1..], v)
  }

  lemma {:induction false} CommonDump(d: Device, top: bool, hidden: bool, p: Path, v: string)
    requires Keyed(d) && Unambiguous(d, p, v)
    ensures Effect(Dump(d, top, true, hidden), p, v) == CommonValue(d, top, hidden, p, v)
    decreases |p|
  {
    assert At(d, []) == Some(d);
    DumpEffect(d, top, true, hidden, p, v);
    if p != [] {
      var k := GroupIndex(d.groups, p[0].group);
      if k != -1 {
        var r := Representative(d.groups[k].members);
        if r != -1 {
          KeyedBelow(d, k, r);
          CommonDump(d.groups[k].members[r].dev, false, hidden, p[1..], v);
        }
      }
    }
  }

  lemma {:induction false} InstanceDump(d: Device, top: bool, hidden: bool, p: Path, v: string)
    requires Keyed(d) && Reachable(d, p, v)
    ensures Effect(Dump(d, top, false, hidden), p, v) == InstanceValue(d, top, hidden, p, v)
    decreases |p|
  {
    assert At(d, []) == Some(d);
    DumpEffect(d, top, false, hidden, p, v);
    if p != [] {
      var k := GroupIndex(d.groups, p[0].group);
      KeyedBelow(d, k, p[0].index);
      InstanceDump(d.groups[k].members[p[0].index].dev, false, hidden, p[1..], v);
    }
  }

  /* ----- Round trip ----- */

  /**
   * Keys are distinct at every device, and no variable is called like a type below its own device or below
   * the representative that speaks for it.
   */
  ghost predicate WellKeyed(d: Device) {
    Keyed(d) && forall p: Path, v: string :: VarAt(d, p, v).Some? ==> Unambiguous(d, p, v)
  }

  lemma KeyedReaches(d: Device, p: Path, v: string)
    requires Keyed(d) && VarAt(d, p, v).Some?
    ensures Reachable(d, p, v)
  {
    assert LocallyKeyed(At(d, p).value);
  }

  /** The same devices with the same variables, whatever their values. */
  ghost predicate SameShape(a: Device, b: Device) {
    forall p: Path ::
      && (At(a, p).Some? <==> At(b, p).Some?)
      && (At(a, p).Some? ==> SameLocally(At(a, p).value, At(b, p).value))
  }

  predicate Dumped(d: Device, p: Path, v: string, hidden: bool) {
    VarAt(d, p, v).Some? &&
    var x := VarAt(d, p, v).value;
    x.kind != Status && !x.noConfig && (!x.hidden || p == [] || hidden)
  }

  ghost predicate Restored(a: Device, b: Device, hidden: bool) {
    forall p: Path, v: string :: Dumped(a, p, v, hidden) ==>
      ValueAt(Load(b, ConfigElems(a, hidden)), p, v) == ValueAt(a, p, v)
  }

  /** Where no per-instance entry follows, the representative of the type shows the same value. */
  ghost predicate Agreed(a: Device, hidden: bool) {
    forall p: Path, v: string :: Dumped(a, p, v, hidden) && !VarAt(a, p, v).value.perInstance ==>
      CommonValue(a, true, hidden, p, v) == ValueAt(a, p, v)
  }

  /** The value after loading: the old one, overridden by the common pass, overridden by the other. */
  lemma LoadedValue(a: Device, b: Device, hidden: bool, p: Path, v: string)
    requires WellKeyed(a) && SameShape(a, b) && VarAt(a, p, v).Some?
    ensures ValueAt(Load(b, ConfigElems(a, hidden)), p, v)
            == Over(Over(ValueAt(b, p, v), CommonValue(a, true, hidden, p, v)), InstanceValue(a, true, hidden, p, v))
  {
    KeyedReaches(a, p, v);
    CommonDump(a, true, hidden, p, v);
    InstanceDump(a, true, hidden, p, v);
    EffectConcat(Dump(a, true, true, hidden), Dump(a, true, false, hidden), p, v);
    ReachableKept(a, b, p, v);
    LoadValue(b, ConfigElems(a, hidden), p, v);
  }

  /** An element that addresses one variable of one instance. */
  function Chain(p: Path, v: string, value: string): seq<Xml>
    decreases |p|
  {
    if p == [] then [Elem(v, None, value, [])]
    else [Elem(p[0].group, Some(p[0].index), LINE_END, Chain(p[1..], v, value))]
  }

  lemma {:induction false} ChainEffect(p: Path, v: string, value: string)
    ensures Effect(Chain(p, v, value), p, v) == Some(value)
    decreases |p|
  {
    var xs := Chain(p, v, value);
    assert xs[1..] == [] && Effect(xs[1..], p, v) == None;
    if p != [] { ChainEffect(p[1..], v, value); }
  }

  lemma LoadedShape(a: Device, xs: seq<Xml>)
    ensures SameShape(a, Load(a, xs))
  {
    forall p: Path
      ensures At(a, p).Some? <==> At(Load(a, xs), p).Some?
      ensures At(a, p).Some? ==> SameLocally(At(a, p).value, At(Load(a, xs), p).value)
    {
      LoadAt(a, xs, p);
    }
  }

  lemma AgreedRestores(a: Device, b: Device, hidden: bool)
    requires WellKeyed(a) && SameShape(a, b) && Agreed(a, hidden)
    ensures Restored(a, b, hidden)
  {
    forall p: Path, v: string | Dumped(a, p, v, hidden)
      ensures ValueAt(Load(b, ConfigElems(a, hidden)), p, v) == ValueAt(a, p, v)
    {
      LoadedValue(a, b, hidden, p, v);
    }
  }

  /** A tree of the same shape that the dump fails to restore, where the representative disagrees. */
  lemma DisagreedSpoils(a: Device, hidden: bool, p: Path, v: string) returns (b: Device)
    requires WellKeyed(a) && Dumped(a, p, v, hidden) && !VarAt(a, p, v).value.perInstance
    requires CommonValue(a, true, hidden, p, v) != ValueAt(a, p, v)
    ensures SameShape(a, b) && !Restored(a, b, hidden)
  {
    if CommonValue(a, true, hidden, p, v).Some? {
      b := a;
    } else {
      var other := ValueAt(a, p, v).value + "x";
      b := Load(a, Chain(p, v, other));
      LoadedShape(a, Chain(p, v, other));
      KeyedReaches(a, p, v);
      ChainEffect(p, v, other);
      LoadValue(a, Chain(p, v, other), p, v);
    }
    LoadedValue(a, b, hidden, p, v);
  }

  /** Exactly the trees whose representatives agree survive a dump and a load into any tree of their shape. */
  lemma RestoresExactly(a: Device, hidden: bool)
    requires WellKeyed(a)
    ensures (forall b :: SameShape(a, b) ==> Restored(a, b, hidden)) <==> Agreed(a, hidden)
  {
    if Agreed(a, hidden) {
      forall b | SameShape(a, b) ensures Restored(a, b, hidden) { AgreedRestores(a, b, hidden); }
    } else {
      var p: Path, v: string :| Dumped(a, p, v, hidden) && !VarAt(a, p, v).value.perInstance
                                && CommonValue(a, true, hidden, p, v) != ValueAt(a, p, v);
      var b := DisagreedSpoils(a, hidden, p, v);
    }
  }

  /* ----- The usual case: all instances of a type are alike ----- */

  predicate SameTypes(p: Path, q: Path) {
    |p| == |q| && forall i :: 0 <= i < |p| ==> p[i].group == q[i].group
  }

  predicate HasInstance(d: Device, name: string) {
    var k := GroupIndex(d.groups, name);
    k != -1 && Representative(d.groups[k].members) != -1
  }

  predicate AlikeVariable(x: Variable, y: Variable) {
    y == x.(value := y.value) && (x.perInstance || x.value == y.value)
  }

  /** Instances of a type have the same variables and sub-device types, and equal common values. */
  ghost predicate Homogeneous(d: Device) {
    forall p: Path, q: Path :: SameTypes(p, q) && At(d, p).Some? && At(d, q).Some? ==>
      && (forall name :: HasInstance(At(d, p).value, name) ==> HasInstance(At(d, q).value, name))
      && (forall v :: VarAt(d, p, v).Some? ==>
            VarAt(d, q, v).Some? && AlikeVariable(VarAt(d, p, v).value, VarAt(d, q, v).value))
  }

  lemma {:induction false} AtConcat(d: Device, p: Path, q: Path)
    requires At(d, p).Some?
    ensures At(d, p + q) == At(At(d, p).value, q)
    decreases |p|
  {
    if p == [] {
      assert p + q == q;
    } else {
      var k := GroupIndex(d.groups, p[0].group);
      assert (p + q)[1..] == p[1..] + q;
      AtConcat(d.groups[k].members[p[0].index].dev, p[1..], q);
    }
  }

  /** The common pass speaks for an instance of the same type path. `pre` and `alike` lead to the same type. */
  lemma {:induction false} RepresentedBy(d: Device, pre: Path, alike: Path, p: Path, hidden: bool, v: string)
      returns (q: Path)
    requires Homogeneous(d) && SameTypes(pre, alike) && At(d, pre).Some? && At(d, alike + p).Some?
    ensures SameTypes(alike + p, pre + q) && At(d, pre + q).Some? && (q == [] <==> p == [])
    ensures CommonValue(At(d, pre).value, pre == [], hidden, p, v)
            == match VarAt(d, pre + q, v)
               case None => None
               case Some(x) => if Belongs(x, pre + q == [], hidden) then Some(x.value) else None
    ensures Keyed(d) && VarAt(d, alike + p, v).Some? ==> Unambiguous(At(d, pre).value, p, v)
    decreases |p|
  {
    hide Homogeneous, VarAt, Belongs, At, Keyed;
    if p == [] {
      q := [];
      assert pre + q == pre && alike + p == alike;
      SpeaksForItself(d, pre, hidden, v);
      if Keyed(d) && VarAt(d, alike, v).Some? {
        SameVariables(d, alike, pre, v);
        KeyedReaches(d, pre, v);
      }
    } else {
      var here := At(d, pre).value;
      PrefixAt(d, alike, p);
      SameInstances(d, alike, pre, p[0].group);
      var k := GroupIndex(here.groups, p[0].group);
      var step := Step(p[0].group, Representative(here.groups[k].members));
      AtMember(d, pre, step);
      assert alike + p == (alike + [p[0]]) + p[1..];
      var rest := RepresentedBy(d, pre + [step], alike + [p[0]], p[1..], hidden, v);
      q := [step] + rest;
      assert pre + q == (pre + [step]) + rest;
    }
  }

  lemma SpeaksForItself(d: Device, pre: Path, hidden: bool, v: string)
    requires At(d, pre).Some?
    ensures CommonValue(At(d, pre).value, pre == [], hidden, [], v)
            == match VarAt(d, pre, v)
               case None => None
               case Some(x) => if Belongs(x, pre == [], hidden) then Some(x.value) else None
  {
  }

  lemma AtMember(d: Device, pre: Path, step: Step)
    requires At(d, pre).Some? && GroupIndex(At(d, pre).value.groups, step.group) != -1
    requires var g := At(d, pre).value.groups[GroupIndex(At(d, pre).value.groups, step.group)];
             step.index < |g.members| && g.members[step.index].Occupied?
    ensures var g := At(d, pre).value.groups[GroupIndex(At(d, pre).value.groups, step.group)];
            At(d, pre + [step]) == Some(g.members[step.index].dev)
  {
    AtConcat(d, pre, [step]);
    assert [step][1..] == [];
  }

  lemma SameVariables(d: Device, p: Path, q: Path, v: string)
    requires Homogeneous(d) && SameTypes(p, q) && At(d, p).Some? && At(d, q).Some? && VarAt(d, p, v).Some?
    ensures VarAt(d, q, v).Some?
  {
  }

  lemma SameInstances(d: Device, p: Path, q: Path, name: string)
    requires Homogeneous(d) && SameTypes(p, q) && At(d, p).Some? && At(d, q).Some?
    requires HasInstance(At(d, p).value, name)
    ensures HasInstance(At(d, q).value, name)
  {
  }

  lemma PrefixAt(d: Device, alike: Path, p: Path)
    requires p != [] && At(d, alike + p).Some?
    ensures At(d, alike).Some? && HasInstance(At(d, alike).value, p[0].group)
  {
    PrefixExists(d, alike, p);
    AtConcat(d, alike, p);
    var here := At(d, alike).value;
    var k := GroupIndex(here.groups, p[0].group);
    assert here.groups[k].members[p[0].index].Occupied?;
  }

  lemma {:induction false} PrefixExists(d: Device, p: Path, q: Path)
    requires At(d, p + q).Some?
    ensures At(d, p).Some?
    decreases |p|
  {
    if p != [] {
      var k := GroupIndex(d.groups, p[0].group);
      assert (p + q)[1..] == p[1..] + q;
      PrefixExists(d.groups[k].members[p[0].index].dev, p[1..], q);
    }
  }

  /** There no name is ambiguous. */
  lemma HomogeneousIsWellKeyed(d: Device)
    requires Homogeneous(d) && Keyed(d)
    ensures WellKeyed(d)
  {
    forall p: Path, v: string | VarAt(d, p, v).Some? ensures Unambiguous(d, p, v) {
      assert [] + p == p && At(d, []) == Some(d);
      var q := RepresentedBy(d, [], [], p, false, v);
    }
  }

  lemma HomogeneousAgrees(d: Device, hidden: bool)
    requires Homogeneous(d)
    ensures Agreed(d, hidden)
  {
    forall p: Path, v: string | Dumped(d, p, v, hidden) && !VarAt(d, p, v).value.perInstance
      ensures CommonValue(d, true, hidden, p, v) == ValueAt(d, p, v)
    {
      assert [] + p == p && At(d, []) == Some(d);
      var q := RepresentedBy(d, [], [], p, hidden, v);
      assert [] + q == q;
    }
  }

  /* ----- What a dump does not say ----- */

  /** The value the common pass prints is that of some variable of the same type, which belongs into a dump. */
  lemma {:induction false} CommonSource(d: Device, top: bool, hidden: bool, p: Path, v: string) returns (q: Path)
    requires CommonValue(d, top, hidden, p, v).Some?
    ensures SameTypes(p, q) && VarAt(d, q, v).Some?
    ensures var x := VarAt(d, q, v).value;
            Belongs(x, top && q == [], hidden) && CommonValue(d, top, hidden, p, v) == Some(x.value)
    decreases |p|
  {
    q := [];
    if p != [] {
      var k := GroupIndex(d.groups, p[0].group);
      var r := Representative(d.groups[k].members);
      var rest := CommonSource(d.groups[k].members[r].dev, false, hidden, p[1..], v);
      q := [Step(p[0].group, r)] + rest;
      assert q[1..] == rest;
      forall i | 0 <= i < |p| ensures p[i].group == q[i].group {
        if i > 0 { assert p[1..][i - 1].group == rest[i - 1].group; }
      }
    }
  }

  /** What is addressed to a variable is the value of one of the same type, no status and not kept out. */
  lemma AddressedBelongs(d: Device, hidden: bool, p: Path, v: string)
    requires WellKeyed(d) && VarAt(d, p, v).Some? && Effect(ConfigElems(d, hidden), p, v).Some?
    ensures exists q :: SameTypes(p, q) && Dumped(d, q, v, hidden)
                        && Effect(ConfigElems(d, hidden), p, v) == ValueAt(d, q, v)
  {
    KeyedReaches(d, p, v);
    CommonDump(d, true, hidden, p, v);
    InstanceDump(d, true, hidden, p, v);
    EffectConcat(Dump(d, true, true, hidden), Dump(d, true, false, hidden), p, v);
    if InstanceValue(d, true, hidden, p, v).Some? {
      assert SameTypes(p, p) && Dumped(d, p, v, hidden);
    } else {
      var q := CommonSource(d, true, hidden, p, v);
      assert Dumped(d, q, v, hidden);
    }
  }

  /** When the instances of a type are alike, nothing is addressed to a variable that does not belong into a dump. */
  lemma NothingElseAddressed(d: Device, hidden: bool, p: Path, v: string)
    requires Homogeneous(d) && Keyed(d) && VarAt(d, p, v).Some?
    ensures var x := VarAt(d, p, v).value;
            (x.kind == Status || x.noConfig || (x.hidden && p != [] && !hidden)) ==>
              Effect(ConfigElems(d, hidden), p, v) == None
  {
    hide Homogeneous, At, ConfigElems, Effect;
    if Effect(ConfigElems(d, hidden), p, v).Some? {
      HomogeneousIsWellKeyed(d);
      AddressedBelongs(d, hidden, p, v);
      var q :| SameTypes(p, q) && Dumped(d, q, v, hidden);
      AlikeThere(d, p, q, v);
    }
  }

  lemma AlikeThere(d: Device, p: Path, q: Path, v: string)
    requires Homogeneous(d) && SameTypes(p, q) && VarAt(d, p, v).Some? && VarAt(d, q, v).Some?
    ensures AlikeVariable(VarAt(d, p, v).value, VarAt(d, q, v).value) && (p == [] <==> q == [])
  {
  }

  /* ----- The elements of a dump ----- */

  /** The element of a variable of the device. */
  predicate TellsVariable(d: Device, x: Xml, top: bool, common: bool, hidden: bool, k: nat) {
    && k < |d.vars| && Belongs(d.vars[k], top, hidden) && (common || d.vars[k].perInstance)
    && x == Elem(d.vars[k].name, None, d.vars[k].value, [])
  }

  /** The element of instance `m` of type `k`, with something inside. */
  predicate TellsDevice(d: Device, x: Xml, common: bool, hidden: bool, k: nat, m: nat) {
    && k < |d.groups| && m < |d.groups[k].members| && d.groups[k].members[m].Occupied?
    && x.name == d.groups[k].name && x.index == (if common then None else Some(m)) && x.text == "\n"
    && x.children == Dump(d.groups[k].members[m].dev, false, common, hidden) != []
  }

  /** Nothing else is printed: no empty device tags, and no variable that does not belong into the pass. */
  lemma DumpElements(d: Device, top: bool, common: bool, hidden: bool, x: Xml)
    requires x in Dump(d, top, common, hidden)
    ensures (exists k :: TellsVariable(d, x, top, common, hidden, k))
            || exists k, m :: TellsDevice(d, x, common, hidden, k, m)
  {
    assert d.vars[..|d.vars|] == d.vars;
    if x in VarElems(d.vars, top, common, hidden) {
      VariableElements(d, |d.vars|, top, common, hidden, x);
    } else {
      DeviceElements(d, |d.groups|, common, hidden, x);
    }
  }

  lemma {:induction false} VariableElements(d: Device, n: nat, top: bool, common: bool, hidden: bool, x: Xml)
    requires n <= |d.vars| && x in VarElems(d.vars[..n], top, common, hidden)
    ensures exists k :: TellsVariable(d, x, top, common, hidden, k)
  {
    if n != 0 {
      assert d.vars[..n][..n - 1] == d.vars[..n - 1];
      if x in VarElems(d.vars[..n - 1], top, common, hidden) {
        VariableElements(d, n - 1, top, common, hidden, x);
      } else {
        assert TellsVariable(d, x, top, common, hidden, n - 1);
      }
    }
  }

  lemma {:induction false} DeviceElements(d: Device, n: nat, common: bool, hidden: bool, x: Xml)
    requires n <= |d.groups| && x in GroupElems(d, n, common, hidden)
    ensures exists k, m :: TellsDevice(d, x, common, hidden, k, m)
  {
    var g := d.groups[n - 1];
    if x in GroupElems(d, n - 1, common, hidden) {
      DeviceElements(d, n - 1, common, hidden, x);
    } else if common {
      assert TellsDevice(d, x, common, hidden, n - 1, Representative(g.members));
    } else {
      InstanceElements(d, n - 1, |g.members|, hidden, x);
    }
  }

  lemma {:induction false} InstanceElements(d: Device, k: nat, n: nat, hidden: bool, x: Xml)
    requires k < |d.groups| && n <= |d.groups[k].members| && x in MemberElems(d.groups[k], n, hidden)
    ensures exists m :: TellsDevice(d, x, false, hidden, k, m)
    decreases n
  {
    if x in MemberElems(d.groups[k], n - 1, hidden) {
      InstanceElements(d, k, n - 1, hidden, x);
    } else {
      assert TellsDevice(d, x, false, hidden, k, n - 1);
    }
  }
}
