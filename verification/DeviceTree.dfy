/** Devices with their variables and sub-devices, and the tree form of a configuration dump. */
module DeviceTree {
  import opened Options

  datatype VariableType = Configuration | Status | Feedback

  datatype Variable = Variable(
    name: string, kind: VariableType, perInstance: bool, noConfig: bool, hidden: bool, value: string)

  /** Variables and device types are kept in key order; a type is a vector that may have gaps. */
  datatype Device = Device(vars: seq<Variable>, groups: seq<Group>)
  datatype Group = Group(name: string, members: seq<Slot>)
  datatype Slot = Vacant | Occupied(dev: Device)

  /** An element: its text is what the loader takes for a variable's value. */
  datatype Xml = Elem(name: string, index: Option<nat>, text: string, children: seq<Xml>)

  function VarIndex(vars: seq<Variable>, name: string): (k: int)
    ensures k == -1 || (0 <= k < |vars| && vars[k].name == name)
    ensures forall i :: 0 <= i < (if k == -1 then |vars| else k) ==> vars[i].name != name
  {
    if vars == [] then -1
    else if vars[0].name == name then 0
    else var k := VarIndex(vars[1..], name); if k == -1 then -1 else k + 1
  }

  function GroupIndex(groups: seq<Group>, name: string): (k: int)
    ensures k == -1 || (0 <= k < |groups| && groups[k].name == name)
    ensures k == -1 ==> forall i :: 0 <= i < |groups| ==> groups[i].name != name
  {
    if groups == [] then -1
    else if groups[0].name == name then 0
    else var k := GroupIndex(groups[1..], name); if k == -1 then -1 else k + 1
  }

  predicate IsEnabled(d: Device) {
    var k := VarIndex(d.vars, "Enabled");
    k != -1 && d.vars[k].value == "True"
  }

  /** Enabled means: the first variable called so says "True". */
  lemma EnabledExactly(d: Device)
    ensures IsEnabled(d) <==> exists k :: 0 <= k < |d.vars| && d.vars[k].name == "Enabled" && d.vars[k].value == "True"
                                          && forall i :: 0 <= i < k ==> d.vars[i].name != "Enabled"
  {
    var k := VarIndex(d.vars, "Enabled");
    assert k != -1 ==> d.vars[k].name == "Enabled";
  }

  /** First occupied slot from `n` on, or -1. */
  function FirstOccupied(ms: seq<Slot>, n: nat): (k: int)
    requires n <= |ms|
    ensures k == -1 || (n <= k < |ms| && ms[k].Occupied?)
    ensures forall i :: n <= i < (if k == -1 then |ms| else k) ==> ms[i].Vacant?
    decreases |ms| - n
  {
    if n == |ms| then -1 else if ms[n].Occupied? then n else FirstOccupied(ms, n + 1)
  }

  function FirstEnabled(ms: seq<Slot>, n: nat): (k: int)
    requires n <= |ms|
    ensures k == -1 || (n <= k < |ms| && ms[k].Occupied? && IsEnabled(ms[k].dev))
    ensures forall i :: n <= i < (if k == -1 then |ms| else k) ==> ms[i].Occupied? ==> !IsEnabled(ms[i].dev)
    decreases |ms| - n
  {
    if n == |ms| then -1
    else if ms[n].Occupied? && IsEnabled(ms[n].dev) then n
    else FirstEnabled(ms, n + 1)
  }

  /** The instance that speaks for its type in the common pass. */
  function Representative(ms: seq<Slot>): (k: int)
    ensures k == -1 || (0 <= k < |ms| && ms[k].Occupied?)
    ensures k == -1 <==> forall i :: 0 <= i < |ms| ==> ms[i].Vacant?
    ensures forall i :: 0 <= i < k && ms[i].Occupied? ==> IsEnabled(ms[k].dev) && !IsEnabled(ms[i].dev)
    ensures k != -1 && !IsEnabled(ms[k].dev) ==> forall i :: 0 <= i < |ms| && ms[i].Occupied? ==> !IsEnabled(ms[i].dev)
  {
    var k := FirstEnabled(ms, 0);
    if k != -1 then k else FirstOccupied(ms, 0)
  }

  /** The search for a representative, seen from slot `n` of a loop over the vector. */
  lemma {:induction false} FirstEnabledFrom(ms: seq<Slot>, n: nat)
    requires n <= |ms|
    requires forall i :: 0 <= i < n && ms[i].Occupied? ==> !IsEnabled(ms[i].dev)
    ensures FirstEnabled(ms, 0) == FirstEnabled(ms, n)
  {
    if n != 0 { FirstEnabledFrom(ms, n - 1); }
  }

  lemma {:induction false} FirstOccupiedFrom(ms: seq<Slot>, n: nat)
    requires n <= |ms|
    requires forall i :: 0 <= i < n ==> ms[i].Vacant?
    ensures FirstOccupied(ms, 0) == FirstOccupied(ms, n)
  {
    if n != 0 { FirstOccupiedFrom(ms, n - 1); }
  }

  /** What a dump shows of a variable. */
  predicate Shown(v: Variable, top: bool, hidden: bool) {
    v.kind != Status && !v.noConfig && (!v.hidden || top || hidden)
  }

  predicate Printed(v: Variable, top: bool, common: bool, hidden: bool) {
    Shown(v, top, hidden) && (common || v.perInstance)
  }

  function VarElems(vars: seq<Variable>, top: bool, common: bool, hidden: bool): seq<Xml> {
    if vars == [] then []
    else
      var v := vars[|vars| - 1];
      VarElems(vars[..|vars| - 1], top, common, hidden)
      + if Printed(v, top, common, hidden) then [Elem(v.name, None, v.value, [])] else []
  }

  const LINE_END: string := "\n"

  /** A device tag is dropped when nothing is printed inside it. */
  function Tagged(name: string, index: Option<nat>, inner: seq<Xml>): seq<Xml> {
    if inner == [] then [] else [Elem(name, index, LINE_END, inner)]
  }

  /** What is printed of one device, inside its tag. */
  function Dump(d: Device, top: bool, common: bool, hidden: bool): seq<Xml>
    decreases d, 2, 0
  {
    VarElems(d.vars, top, common, hidden) + GroupElems(d, |d.groups|, common, hidden)
  }

  function GroupElems(d: Device, n: nat, common: bool, hidden: bool): seq<Xml>
    requires n <= |d.groups|
    decreases d, 1, n
  {
    if n == 0 then []
    else
      var g := d.groups[n - 1];
      GroupElems(d, n - 1, common, hidden)
      + if common then CommonElems(g, hidden) else MemberElems(g, |g.members|, hidden)
  }

  function CommonElems(g: Group, hidden: bool): seq<Xml>
    decreases g, 1, 0
  {
    var k := Representative(g.members);
    if k == -1 then [] else Tagged(g.name, None, Dump(g.members[k].dev, false, true, hidden))
  }

  function MemberElems(g: Group, n: nat, hidden: bool): seq<Xml>
    requires n <= |g.members|
    decreases g, 1, n
  {
    if n == 0 then []
    else
      MemberElems(g, n - 1, hidden)
      + match g.members[n - 1]
        case Vacant => []
        case Occupied(dev) => Tagged(g.name, Some(n - 1), Dump(dev, false, false, hidden))
  }

  /** The `config` element: the common pass, then the pass over all instances. */
  function ConfigElems(d: Device, hidden: bool): seq<Xml> {
    Dump(d, true, true, hidden) + Dump(d, true, false, hidden)
  }

  function SetVar(vars: seq<Variable>, name: string, value: string): (r: seq<Variable>)
    ensures |r| == |vars|
  {
    var k := VarIndex(vars, name);
    if k == -1 then vars else vars[k := vars[k].(value := value)]
  }

  function Load(d: Device, xs: seq<Xml>): Device
    decreases xs, 2
  {
    if xs == [] then d else Load(LoadOne(d, xs[0]), xs[1..])
  }

  function LoadOne(d: Device, x: Xml): Device
    decreases x, 2
  {
    var k := GroupIndex(d.groups, x.name);
    if k == -1 then d.(vars := SetVar(d.vars, x.name, x.text))
    else d.(groups := d.groups[k := LoadGroup(d.groups[k], x)])
  }

  function LoadGroup(g: Group, x: Xml): Group
    decreases x, 1
  {
    g.(members := seq(|g.members|, i requires 0 <= i < |g.members| => LoadSlot(g.members[i], i, x)))
  }

  function LoadSlot(m: Slot, i: nat, x: Xml): Slot
    decreases x, 0
  {
    if m.Occupied? && (x.index == None || x.index == Some(i)) then Occupied(Load(m.dev, x.children)) else m
  }
}
