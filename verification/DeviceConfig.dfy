/** The loops that print a device's configuration and load it back. */
module DeviceConfig {
  import opened DeviceTree
  import opened Options

  /** `getXmlConfig`: nothing at all when nothing is printed inside the tag. */
  method GetXmlConfig(d: Device, name: string, index: nat, top: bool, common: bool, hidden: bool)
      returns (xs: seq<Xml>)
    ensures xs == if top then Dump(d, top, common, hidden)
                  else Tagged(name, if common then None else Some(index), Dump(d, top, common, hidden))
    decreases d
  {
    hide VarElems, CommonElems, MemberElems;
    var tmp := GetVariables(d.vars, top, common, hidden);
    ghost var own := tmp;
    for n := 0 to |d.groups|
      invariant tmp == own + GroupElems(d, n, common, hidden)
    {
      var these := GetGroupConfig(d.groups[n], common, hidden);
      GroupElemsStep(d, n, common, hidden);
      assert own + (GroupElems(d, n, common, hidden) + these) == tmp + these;
      tmp := tmp + these;
    }
    if tmp == [] || top {
      xs := tmp;
    } else {
      xs := [Elem(name, if common then None else Some(index), LINE_END, tmp)];
    }
  }

  lemma GroupElemsStep(d: Device, n: nat, common: bool, hidden: bool)
    requires n < |d.groups|
    ensures var g := d.groups[n];
            GroupElems(d, n + 1, common, hidden)
            == GroupElems(d, n, common, hidden)
               + if common then CommonElems(g, hidden) else MemberElems(g, |g.members|, hidden)
  {
  }

  method GetVariables(vars: seq<Variable>, top: bool, common: bool, hidden: bool) returns (tmp: seq<Xml>)
    ensures tmp == VarElems(vars, top, common, hidden)
  {
    tmp := [];
    for i := 0 to |vars|
      invariant tmp == VarElems(vars[..i], top, common, hidden)
    {
      var v := vars[i];
      assert vars[..i + 1][..i] == vars[..i];
      if v.kind != Status && !v.noConfig && (!v.hidden || top || hidden) {
        if common || v.perInstance {
          tmp := tmp + [Elem(v.name, None, v.value, [])];
        }
      }
    }
    assert vars[..|vars|] == vars;
  }

  /** The inner loop over one vector of devices. */
  method GetGroupConfig(g: Group, common: bool, hidden: bool) returns (tmp: seq<Xml>)
    ensures tmp == if common then CommonElems(g, hidden) else MemberElems(g, |g.members|, hidden)
    decreases g
  {
    tmp := [];
    var ms := g.members;
    var first := -1;
    for i := 0 to |ms|
      invariant first == -1 || (0 <= first < i && ms[first].Occupied?)
      invariant forall j :: 0 <= j < (if first == -1 then i else first) ==> ms[j].Vacant?
      invariant common ==> tmp == [] && forall j :: 0 <= j < i && ms[j].Occupied? ==> !IsEnabled(ms[j].dev)
      invariant !common ==> tmp == MemberElems(g, i, hidden)
    {
      if ms[i].Occupied? {
        if first == -1 { first := i; }
        if !common || IsEnabled(ms[i].dev) {
          if common { FirstEnabledFrom(ms, i); }
          var these := GetXmlConfig(ms[i].dev, g.name, i, false, common, hidden);
          tmp := tmp + these;
          if common { return; }
        }
      }
    }
    if common { FirstEnabledFrom(ms, |ms|); }
    if common && first != -1 {
      FirstOccupiedFrom(ms, first);
      tmp := GetXmlConfig(ms[first].dev, g.name, first, false, common, hidden);
    }
  }

  /** `configString`. */
  method ConfigString(d: Device, hidden: bool) returns (xs: seq<Xml>)
    ensures xs == ConfigElems(d, hidden)
  {
    var common := GetXmlConfig(d, "", 0, true, true, hidden);
    var perInstance := GetXmlConfig(d, "", 0, true, false, hidden);
    xs := common + perInstance;
  }

  /** `setXmlConfig`: un-indexed elements go to every instance, indexed ones to theirs. */
  method SetXmlConfig(d: Device, nodes: seq<Xml>) returns (e: Device)
    ensures e == Load(d, nodes)
    decreases nodes, 1
  {
    e := d;
    for n := 0 to |nodes|
      invariant Load(d, nodes) == Load(e, nodes[n..])
    {
      var x := nodes[n];
      assert nodes[n..][0] == x && nodes[n..][1..] == nodes[n + 1..];
      var k := GroupIndex(e.groups, x.name);
      if k != -1 {
        var g := SetGroup(e.groups[k], x);
        e := e.(groups := e.groups[k := g]);
      } else {
        e := e.(vars := SetVar(e.vars, x.name, x.text));
      }
    }
  }

  method SetGroup(g: Group, x: Xml) returns (h: Group)
    ensures h == LoadGroup(g, x)
    decreases x, 0
  {
    var ms := g.members;
    if x.index == None {
      for i := 0 to |ms|
        invariant |ms| == |g.members|
        invariant forall j :: 0 <= j < i ==> ms[j] == LoadSlot(g.members[j], j, x)
        invariant forall j :: i <= j < |ms| ==> ms[j] == g.members[j]
      {
        if ms[i].Occupied? {
          var dev := SetXmlConfig(ms[i].dev, x.children);
          ms := ms[i := Occupied(dev)];
        }
      }
    } else if x.index.value < |ms| {
      if ms[x.index.value].Occupied? {
        var dev := SetXmlConfig(ms[x.index.value].dev, x.children);
        ms := ms[x.index.value := Occupied(dev)];
      }
    }
    h := g.(members := ms);
    assert h.members == LoadGroup(g, x).members;
  }
}
