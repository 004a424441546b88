/** The loops that write and verify the configuration of a device tree, updating registers and hardware. */
module DeviceDriver {
  import opened Options
  import opened RegisterBits
  import opened ShadowRegister
  import opened RegisterCache
  import opened RegisterLink
  import opened DeviceRegisters

  /** Every configuration link of the tree belongs to a register of its size. */
  ghost predicate FitsTree(s: State, d: Device)
    requires Sized(s)
    decreases d
  {
    Fits(s, ConfigLinks(d.links)) && forall i :: 0 <= i < |d.subs| ==> FitsTree(s, d.subs[i])
  }

  lemma {:induction false} ActiveFits(s: State, d: Device)
    requires Sized(s) && FitsTree(s, d)
    ensures Fits(s, Active(d))
    decreases d, 0
  {
    if d.enabled {
      ActiveSubsFit(s, d, |d.subs|);
    }
  }

  lemma {:induction false} ActiveSubsFit(s: State, d: Device, n: nat)
    requires Sized(s) && FitsTree(s, d) && n <= |d.subs|
    ensures Fits(s, ActiveSubs(d, n))
    decreases d, 0, n
  {
    if n != 0 {
      ActiveSubsFit(s, d, n - 1);
      ActiveFits(s, d.subs[n - 1]);
    }
  }

  lemma {:induction false} TreeKept(s: State, t: State, d: Device)
    requires Sized(s) && Sized(t) && SameSizes(s, t) && FitsTree(s, d)
    ensures FitsTree(t, d)
    decreases d
  {
    hide SameSizes;
    FitsAllKept(s, t, ConfigLinks(d.links));
    forall i | 0 <= i < |d.subs| ensures FitsTree(t, d.subs[i]) { TreeKept(s, t, d.subs[i]); }
  }

  class Driver {
    var regs: map<nat, Shadow>
    var hw: map<nat, seq<Bits>>
    var known: set<nat>

    ghost function State(): State
      reads this
    {
      RegisterCache.State(regs, hw, known)
    }

    method WriteRegister(r: nat, enabled: bool, force: bool, fault: Fault) returns (ok: bool)
      requires Sized(State()) && r in regs
      modifies this
      ensures (State(), ok) == RegisterCache.WriteRegister(old(State()), enabled, r, force, fault)
    {
      if force { regs := regs[r := regs[r].(stale := true)]; }
      if !enabled || !regs[r].stale { return true; }
      match fault {
        case Fine =>
          hw := hw[r := regs[r].words];
          regs := regs[r := regs[r].(stale := false)];
          known := known + {r};
          ok := true;
        case Lost => ok := false;
        case Refused =>
          hw := hw[r := regs[r].words];
          ok := false;
        case Stray(_) =>
          regs := regs[r := regs[r].(stale := false)];
          known := known + {r};
          ok := true;
      }
    }

    method ReadRegister(r: nat, enabled: bool, fault: Fault) returns (ok: bool)
      requires Sized(State()) && r in regs
      modifies this
      ensures (State(), ok) == RegisterCache.ReadRegister(old(State()), enabled, r, fault)
    {
      if !enabled { return true; }
      match fault {
        case Fine =>
          regs := regs[r := Shadow(hw[r], false)];
          known := known + {r};
          ok := true;
        case Lost => ok := false;
        case Refused =>
          regs := regs[r := regs[r].(words := AllOnes(|regs[r].words|))];
          ok := false;
        case Stray(buffer) =>
          regs := regs[r := Shadow(Copied(regs[r].words, buffer), false)];
          known := known + {r};
          ok := true;
      }
    }

    method WriteLink(l: Link, force: bool, faults: Faults) returns (ok: bool)
      requires Sized(State()) && FitsOne(State(), l)
      modifies this
      ensures (State(), ok) == DeviceRegisters.WriteLink(old(State()), l, force, faults)
    {
      var newData := VariablesToRegister(l, regs[l.reg].words);
      regs := regs[l.reg := SetData(regs[l.reg], newData)];
      ok := WriteRegister(l.reg, true, force, faults(l.reg));
    }

    /** What `readConfig` does with one link: read the register, then set the variables from it. */
    method ReadLink(l: Link, faults: Faults) returns (values: Option<seq<Bits>>)
      requires Sized(State()) && FitsOne(State(), l)
      modifies this
      ensures (State(), values) == DeviceRegisters.ReadLink(old(State()), l, faults)
    {
      ReadBrings(State(), l.reg, faults(l.reg));
      var ok := ReadRegister(l.reg, true, faults(l.reg));
      if !ok { return None; }
      var taken := RegisterToVariables(l, regs[l.reg].words);
      values := Some(taken);
    }

    /** `writeConfig`: the registers of the device, then those below; false once a transaction fails. */
    method WriteConfig(d: Device, force: bool, faults: Faults) returns (ok: bool)
      requires Sized(State()) && FitsTree(State(), d)
      modifies this
      ensures Fits(old(State()), Active(d))
      ensures (State(), ok) == WriteLinks(old(State()), Active(d), force, faults)
      decreases d
    {
      ghost var s := State();
      ActiveFits(s, d);
      if !d.enabled { return true; }
      ok := WriteOwn(d, force, faults);
      ghost var own := ConfigLinks(d.links);
      ActiveSubsFit(s, d, |d.subs|);
      WriteLinksConcat(s, own, ActiveSubs(d, |d.subs|), force, faults);
      if !ok { return; }
      ghost var t := State();
      TreeKept(s, t, d);
      ok := WriteSubs(d, force, faults);
    }

    method WriteOwn(d: Device, force: bool, faults: Faults) returns (ok: bool)
      requires Sized(State()) && Fits(State(), ConfigLinks(d.links))
      modifies this
      ensures Fits(old(State()), ConfigLinks(d.links))
      ensures (State(), ok) == WriteLinks(old(State()), ConfigLinks(d.links), force, faults)
    {
      hide FitsOne, WriteLinks, ConfigLinks, HasConfig, DeviceRegisters.WriteLink;
      ghost var s := State();
      assert d.links[..0] == [] && d.links[..|d.links|] == d.links;
      NoLinks(s, force, faults);
      NoConfigLinks();
      for i := 0 to |d.links|
        invariant Fits(s, ConfigLinks(d.links[..i]))
        invariant Sized(State()) && (State(), true) == WriteLinks(s, ConfigLinks(d.links[..i]), force, faults)
      {
        var l := d.links[i];
        ConfigLinksNext(d.links, i);
        if HasConfig(l) {
          ConfigLinksHave(d.links, i);
          OneMore(s, ConfigLinks(d.links[..i]), l, force, faults);
          ok := WriteLink(l, force, faults);
          if !ok {
            StopsHere(s, d.links, i, force, faults);
            return;
          }
        }
      }
      ok := true;
    }

    method WriteSubs(d: Device, force: bool, faults: Faults) returns (ok: bool)
      requires Sized(State()) && FitsTree(State(), d)
      modifies this
      ensures Fits(old(State()), ActiveSubs(d, |d.subs|))
      ensures (State(), ok) == WriteLinks(old(State()), ActiveSubs(d, |d.subs|), force, faults)
      decreases d, 0
    {
      hide FitsOne, WriteLinks, DeviceRegisters.WriteLink, ConfigLinks, SameSizes;
      ghost var s := State();
      ActiveSubsFit(s, d, |d.subs|);
      NoLinks(s, force, faults);
      for n := 0 to |d.subs|
        invariant Fits(s, ActiveSubs(d, n))
        invariant Sized(State()) && (State(), true) == WriteLinks(s, ActiveSubs(d, n), force, faults)
      {
        ActiveFits(s, d.subs[n]);
        TreeKept(s, State(), d.subs[n]);
        WriteLinksConcat(s, ActiveSubs(d, n), Active(d.subs[n]), force, faults);
        ok := WriteConfig(d.subs[n], force, faults);
        if !ok {
          SubStopsHere(s, d, n, |d.subs|, force, faults);
          return;
        }
      }
      ok := true;
    }

    /** Read the register into a copy and compare; the register itself stays as it is. */
    method VerifyRegister(l: Link, faults: Faults) returns (ok: bool)
      requires Sized(State()) && FitsOne(State(), l)
      ensures ok <==> VerifyOne(State(), l, faults)
    {
      var reg := regs[l.reg].words;
      var temp;
      match faults(l.reg) {
        case Fine => temp := hw[l.reg];
        case Stray(buffer) => temp := Copied(reg, buffer);
        case _ => return false;
      }
      var mask := VerifyMask(l);
      if |reg| == 1 {
        ok := GetField(reg[0], 0, mask) == GetField(temp[0], 0, mask);
      } else {
        ok := temp == reg;
      }
    }

    /** `verifyConfig`: false for the exception of the first register that fails. */
    method VerifyConfig(d: Device, faults: Faults) returns (ok: bool)
      requires Sized(State()) && FitsTree(State(), d)
      ensures Fits(State(), Active(d))
      ensures ok <==> VerifyLinks(State(), Active(d), faults)
      decreases d
    {
      hide FitsOne, VerifyOne, HasConfig, ConfigLinks, Sized;
      ActiveFits(State(), d);
      if !d.enabled { return true; }
      NoConfigLinks();
      assert d.links[..0] == [];
      for i := 0 to |d.links|
        invariant Fits(State(), ConfigLinks(d.links[..i]))
        invariant forall l :: l in ConfigLinks(d.links[..i]) && l.verify ==> VerifyOne(State(), l, faults)
      {
        ConfigLinksNext(d.links, i);
        var l := d.links[i];
        if HasConfig(l) {
          ConfigLinksHave(d.links, i);
          if l.verify {
            ok := VerifyRegister(l, faults);
            if !ok { return; }
          }
        }
      }
      assert d.links[..|d.links|] == d.links;
      for n := 0 to |d.subs|
        invariant Fits(State(), ActiveSubs(d, n))
        invariant forall l :: l in ActiveSubs(d, n) && l.verify ==> VerifyOne(State(), l, faults)
      {
        ActiveSubsFit(State(), d, n + 1);
        ok := VerifyConfig(d.subs[n], faults);
        if !ok {
          ActiveSubsHave(d, n, |d.subs|);
          return;
        }
      }
      ok := true;
    }

    /** `setAllStale` over the registers of a device, in any order. */
    method SetAllStale(names: set<nat>)
      requires Sized(State()) && names <= regs.Keys
      modifies this`regs
      ensures State() == Next(old(State()), AllStale(names))
    {
      var left := names;
      while left != {}
        invariant left <= names && regs.Keys == old(regs.Keys)
        invariant forall r :: r in regs ==>
                    regs[r] == if r in names - left then old(regs[r]).(stale := true) else old(regs[r])
        decreases |left|
      {
        var r :| r in left;
        regs := regs[r := regs[r].(stale := true)];
        left := left - {r};
      }
      assert regs == Next(old(State()), AllStale(names)).regs;
    }
  }

  lemma {:induction false} ConfigLinksHave(links: seq<Link>, i: nat)
    requires i < |links| && HasConfig(links[i])
    ensures links[i] in ConfigLinks(links)
    decreases |links|
  {
    if i < |links| - 1 { ConfigLinksHave(links[..|links| - 1], i); }
  }

  lemma {:induction false} ActiveSubsHave(d: Device, n: nat, all: nat)
    requires n < all <= |d.subs|
    ensures forall l :: l in Active(d.subs[n]) ==> l in ActiveSubs(d, all)
    decreases all
  {
    if n < all - 1 { ActiveSubsHave(d, n, all - 1); }
  }

  lemma NoConfigLinks()
    ensures ConfigLinks([]) == []
  {
  }

  lemma ConfigLinksNext(links: seq<Link>, i: nat)
    requires i < |links|
    ensures ConfigLinks(links[..i + 1]) == ConfigLinks(links[..i]) + if HasConfig(links[i]) then [links[i]] else []
    ensures !HasConfig(links[i]) ==> ConfigLinks(links[..i + 1]) == ConfigLinks(links[..i])
  {
    assert links[..i + 1][..i] == links[..i];
  }

  lemma OneMore(s: State, ls: seq<Link>, l: Link, force: bool, faults: Faults)
    requires Sized(s) && Fits(s, ls) && FitsOne(s, l)
    ensures Fits(s, ls + [l])
    ensures var (t, ok) := WriteLinks(s, ls, force, faults);
            && FitsOne(t, l)
            && WriteLinks(s, ls + [l], force, faults) == if ok then WriteLink(t, l, force, faults) else (t, false)
  {
    hide FitsOne, WriteLink, WriteLinks;
    assert (ls + [l])[..|ls + [l]| - 1] == ls && (ls + [l])[|ls + [l]| - 1] == l;
    WriteLinksLast(s, ls + [l], force, faults);
  }

  /** An exception at register `i` ends the list. */
  lemma {:induction false} StopsHere(s: State, links: seq<Link>, i: nat, force: bool, faults: Faults)
    requires Sized(s) && Fits(s, ConfigLinks(links)) && i < |links|
    requires Fits(s, ConfigLinks(links[..i + 1])) && !WriteLinks(s, ConfigLinks(links[..i + 1]), force, faults).1
    ensures WriteLinks(s, ConfigLinks(links), force, faults)
            == WriteLinks(s, ConfigLinks(links[..i + 1]), force, faults)
    decreases |links|
  {
    hide FitsOne, WriteLinks, ConfigLinks, HasConfig;
    var n := |links| - 1;
    assert links[..n + 1] == links;
    ConfigLinksNext(links, n);
    if i == n {
      assert links[..i + 1] == links;
    } else {
      assert links[..n][..i + 1] == links[..i + 1];
      StopsHere(s, links[..n], i, force, faults);
      if HasConfig(links[n]) {
        ConfigLinksHave(links, n);
        OneMore(s, ConfigLinks(links[..n]), links[n], force, faults);
      }
    }
  }

  /** An exception below sub-device `n` ends the walk. */
  lemma {:induction false} SubStopsHere(s: State, d: Device, n: nat, all: nat, force: bool, faults: Faults)
    requires Sized(s) && FitsTree(s, d) && n < all <= |d.subs|
    requires Fits(s, ActiveSubs(d, n + 1)) && !WriteLinks(s, ActiveSubs(d, n + 1), force, faults).1
    ensures Fits(s, ActiveSubs(d, all))
    ensures WriteLinks(s, ActiveSubs(d, all), force, faults) == WriteLinks(s, ActiveSubs(d, n + 1), force, faults)
    decreases all
  {
    hide FitsOne, WriteLinks;
    if all != n + 1 {
      SubStopsHere(s, d, n, all - 1, force, faults);
      ActiveFits(s, d.subs[all - 1]);
      WriteLinksConcat(s, ActiveSubs(d, all - 1), Active(d.subs[all - 1]), force, faults);
    }
  }
}
