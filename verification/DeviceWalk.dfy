/** Which registers of a device tree a walk comes to, in which order, and what it leaves there. */
module DeviceWalk {
  import opened Options
  import opened RegisterBits
  import opened ShadowRegister
  import opened RegisterCache
  import opened RegisterLink
  import opened DeviceRegisters
  import opened DeviceDriver

  /** A register of a device: the sub-devices that lead to the device, and the number of the register there. */
  datatype Place = Place(path: seq<nat>, k: nat)

  function DeviceAt(d: Device, path: seq<nat>): Option<Device>
    decreases |path|
  {
    if path == [] then Some(d)
    else if path[0] >= |d.subs| then None
    else DeviceAt(d.subs[path[0]], path[1..])
  }

  function LinkAt(d: Device, p: Place): Option<Link> {
    match DeviceAt(d, p.path)
    case None => None
    case Some(dev) => if p.k < |dev.links| then Some(dev.links[p.k]) else None
  }

  /** The place exists, each device on the way to it is enabled, and one of its variables is for configuration. */
  ghost predicate Visited(d: Device, p: Place) {
    && (forall n :: 0 <= n <= |p.path| ==> DeviceAt(d, p.path[..n]).Some? && DeviceAt(d, p.path[..n]).value.enabled)
    && LinkAt(d, p).Some?
    && exists x :: 0 <= x < |LinkAt(d, p).value.fields| && LinkAt(d, p).value.fields[x].config
  }

  /** Registers of a device come before those of its sub-devices, these in order. */
  predicate Earlier(p: Place, q: Place)
    decreases |p.path|
  {
    if p.path == [] then q.path != [] || p.k < q.k
    else q.path != [] && (p.path[0] < q.path[0]
                          || (p.path[0] == q.path[0] && Earlier(Place(p.path[1..], p.k), Place(q.path[1..], q.k))))
  }

  function Below(i: nat, p: Place): Place {
    Place([i] + p.path, p.k)
  }

  lemma AtBelow(d: Device, i: nat, p: Place)
    requires i < |d.subs|
    ensures DeviceAt(d, Below(i, p).path) == DeviceAt(d.subs[i], p.path)
    ensures LinkAt(d, Below(i, p)) == LinkAt(d.subs[i], p)
  {
    assert ([i] + p.path)[1..] == p.path;
  }

  lemma VisitedBelow(d: Device, i: nat, p: Place)
    requires d.enabled && i < |d.subs|
    ensures Visited(d, Below(i, p)) <==> Visited(d.subs[i], p)
  {
    var long := Below(i, p).path;
    AtBelow(d, i, p);
    forall n | 0 <= n <= |p.path| ensures DeviceAt(d, long[..n + 1]) == DeviceAt(d.subs[i], p.path[..n]) {
      assert long[..n + 1] == [i] + p.path[..n];
      AtBelow(d, i, Place(p.path[..n], 0));
    }
    assert long[..0] == [] && DeviceAt(d, []) == Some(d);
    if Visited(d, Below(i, p)) {
      forall n | 0 <= n <= |p.path|
        ensures DeviceAt(d.subs[i], p.path[..n]).Some? && DeviceAt(d.subs[i], p.path[..n]).value.enabled
      {
        assert DeviceAt(d, long[..n + 1]).Some?;
      }
    }
    if Visited(d.subs[i], p) {
      forall n | 0 <= n <= |long| ensures DeviceAt(d, long[..n]).Some? && DeviceAt(d, long[..n]).value.enabled {
        if n > 0 { assert DeviceAt(d.subs[i], p.path[..n - 1]).Some?; }
      }
    }
  }

  lemma VisitedHere(d: Device, p: Place)
    requires p.path == []
    ensures Visited(d, p) <==> d.enabled && p.k < |d.links| && HasConfig(d.links[p.k])
  {
    assert forall n :: 0 <= n <= |p.path| ==> p.path[..n] == [];
    assert p.path[..0] == [] && DeviceAt(d, p.path) == Some(d);
    assert LinkAt(d, p) == if p.k < |d.links| then Some(d.links[p.k]) else None;
    if p.k < |d.links| {
      var l := d.links[p.k];
      assert HasConfig(l) <==> exists x :: 0 <= x < |l.fields| && l.fields[x].config;
    }
    if Visited(d, p) { assert DeviceAt(d, p.path[..0]).value.enabled; }
  }

  lemma VisitedSteps(d: Device, p: Place)
    requires Visited(d, p)
    ensures d.enabled && (p.path != [] ==> p.path[0] < |d.subs| && p == Below(p.path[0], Place(p.path[1..], p.k)))
  {
    assert p.path[..0] == [] && DeviceAt(d, []) == Some(d);
    if p.path != [] {
      assert p.path[..1][0] == p.path[0] && DeviceAt(d, p.path[..1]).Some?;
      assert [p.path[0]] + p.path[1..] == p.path;
    }
  }

  /* ----- The places of a walk ----- */

  ghost predicate Sorted(ps: seq<Place>) {
    forall i, j :: 0 <= i < j < |ps| ==> Earlier(ps[i], ps[j])
  }

  /** The links are those at the places, one by one. */
  ghost predicate Spells(d: Device, ps: seq<Place>, ls: seq<Link>) {
    |ps| == |ls| && forall i :: 0 <= i < |ps| ==> LinkAt(d, ps[i]) == Some(ls[i])
  }

  /** `ps` are all visited places of which `inside` holds, in order, and `ls` their links. */
  ghost predicate Enumerates(d: Device, ps: seq<Place>, ls: seq<Link>, inside: Place -> bool) {
    && Sorted(ps) && Spells(d, ps, ls)
    && forall p :: p in ps <==> Visited(d, p) && inside(p)
  }

  lemma EnumeratesBoth(d: Device, ps: seq<Place>, ls: seq<Link>, qs: seq<Place>, ms: seq<Link>,
                       inP: Place -> bool, inQ: Place -> bool, all: Place -> bool)
    requires Enumerates(d, ps, ls, inP) && Enumerates(d, qs, ms, inQ)
    requires forall p :: all(p) <==> inP(p) || inQ(p)
    requires forall p, q :: inP(p) && inQ(q) ==> Earlier(p, q)
    ensures Enumerates(d, ps + qs, ls + ms, all)
  {
    forall i, j | 0 <= i < j < |ps + qs| ensures Earlier((ps + qs)[i], (ps + qs)[j]) {
      if i < |ps| <= j {
        assert ps[i] in ps && qs[j - |ps|] in qs;
      }
    }
    forall p ensures p in ps + qs <==> Visited(d, p) && all(p) {
      assert p in ps + qs <==> p in ps || p in qs;
    }
  }

  predicate Own(n: nat, p: Place) {
    p.path == [] && p.k < n
  }

  predicate InSub(i: nat, p: Place) {
    p.path != [] && p.path[0] == i
  }

  predicate InSubs(n: nat, p: Place) {
    p.path != [] && p.path[0] < n
  }

  lemma {:induction false} OwnPlaces(d: Device, n: nat) returns (ps: seq<Place>)
    requires d.enabled && n <= |d.links|
    ensures Enumerates(d, ps, ConfigLinks(d.links[..n]), (p: Place) => Own(n, p))
  {
    if n == 0 {
      ps := [];
    } else {
      var front := OwnPlaces(d, n - 1);
      ConfigLinksNext(d.links, n - 1);
      var here := OnePlace(d, n - 1);
      ps := front + here;
      EnumeratesBoth(d, front, ConfigLinks(d.links[..n - 1]), here,
                     if HasConfig(d.links[n - 1]) then [d.links[n - 1]] else [],
                     (p: Place) => Own(n - 1, p), (p: Place) => p.path == [] && p.k == n - 1,
                     (p: Place) => Own(n, p));
    }
  }

  lemma OnePlace(d: Device, k: nat) returns (ps: seq<Place>)
    requires d.enabled && k < |d.links|
    ensures Enumerates(d, ps, if HasConfig(d.links[k]) then [d.links[k]] else [],
                       (p: Place) => p.path == [] && p.k == k)
  {
    hide HasConfig;
    var here := Place([], k);
    ps := if HasConfig(d.links[k]) then [here] else [];
    VisitedHere(d, here);
    assert forall p: Place :: p.path == [] && p.k == k ==> p == here;
  }

  function AllBelow(i: nat, ps: seq<Place>): seq<Place> {
    seq(|ps|, j requires 0 <= j < |ps| => Below(i, ps[j]))
  }

  lemma PlacesBelow(d: Device, i: nat, ps: seq<Place>, ls: seq<Link>)
    requires d.enabled && i < |d.subs| && Enumerates(d.subs[i], ps, ls, _ => true)
    ensures Enumerates(d, AllBelow(i, ps), ls, (p: Place) => InSub(i, p))
  {
    var qs := AllBelow(i, ps);
    forall j | 0 <= j < |qs| ensures LinkAt(d, qs[j]) == Some(ls[j]) {
      AtBelow(d, i, ps[j]);
    }
    forall j, k | 0 <= j < k < |qs| ensures Earlier(qs[j], qs[k]) {
      assert ([i] + ps[j].path)[1..] == ps[j].path && ([i] + ps[k].path)[1..] == ps[k].path;
    }
    forall p ensures p in qs <==> Visited(d, p) && InSub(i, p) {
      if p in qs {
        var j :| 0 <= j < |qs| && qs[j] == p;
        assert ps[j] in ps;
        VisitedBelow(d, i, ps[j]);
      }
      if Visited(d, p) && InSub(i, p) {
        VisitedSteps(d, p);
        var q := Place(p.path[1..], p.k);
        VisitedBelow(d, i, q);
        var j :| 0 <= j < |ps| && ps[j] == q;
        assert qs[j] == p;
      }
    }
  }

  lemma {:induction false} SubPlaces(d: Device, n: nat) returns (ps: seq<Place>)
    requires d.enabled && n <= |d.subs|
    ensures Enumerates(d, ps, ActiveSubs(d, n), (p: Place) => InSubs(n, p))
    decreases d, 0, n
  {
    if n == 0 {
      ps := [];
    } else {
      var front := SubPlaces(d, n - 1);
      var inner := WalkPlaces(d.subs[n - 1]);
      PlacesBelow(d, n - 1, inner, Active(d.subs[n - 1]));
      ps := front + AllBelow(n - 1, inner);
      EnumeratesBoth(d, front, ActiveSubs(d, n - 1), AllBelow(n - 1, inner), Active(d.subs[n - 1]),
                     (p: Place) => InSubs(n - 1, p), (p: Place) => InSub(n - 1, p), (p: Place) => InSubs(n, p));
    }
  }

  /** The links of a walk are those of the visited places, in order, each place once. */
  lemma {:induction false} WalkPlaces(d: Device) returns (ps: seq<Place>)
    ensures Enumerates(d, ps, Active(d), _ => true)
    decreases d, 1
  {
    if !d.enabled {
      ps := [];
      forall p ensures !Visited(d, p) { if Visited(d, p) { VisitedSteps(d, p); } }
    } else {
      var own := OwnPlaces(d, |d.links|);
      assert d.links[..|d.links|] == d.links;
      var subs := SubPlaces(d, |d.subs|);
      ps := own + subs;
      EnumeratesBoth(d, own, ConfigLinks(d.links), subs, ActiveSubs(d, |d.subs|),
                     (p: Place) => Own(|d.links|, p), (p: Place) => InSubs(|d.subs|, p),
                     (p: Place) => Own(|d.links|, p) || InSubs(|d.subs|, p));
      forall p | Visited(d, p) ensures Own(|d.links|, p) || InSubs(|d.subs|, p) {
        VisitedSteps(d, p);
        if p.path == [] { VisitedHere(d, p); }
      }
    }
  }

  /* ----- What a walk leaves there ----- */

  /** A link is written and verified exactly when it is the link of a visited place. */
  lemma WalkExactly(d: Device, l: Link)
    ensures l in Active(d) <==> exists p :: Visited(d, p) && LinkAt(d, p) == Some(l)
  {
    var ps := WalkPlaces(d);
    if l in Active(d) {
      var i :| 0 <= i < |Active(d)| && Active(d)[i] == l;
      assert ps[i] in ps;
    }
    forall p | Visited(d, p) && LinkAt(d, p) == Some(l) ensures l in Active(d) {
      var i :| 0 <= i < |ps| && ps[i] == p;
      assert Active(d)[i] == l;
    }
  }

  /** Different places have different registers. */
  ghost predicate OwnRegisters(d: Device) {
    forall p, q :: Visited(d, p) && Visited(d, q) && p != q ==>
      LinkAt(d, p).value.reg != LinkAt(d, q).value.reg
  }

  ghost predicate AllWell(d: Device, faults: Faults) {
    forall p :: Visited(d, p) ==> faults(LinkAt(d, p).value.reg) == Fine
  }

  lemma {:induction false} NotEarlier(p: Place)
    ensures !Earlier(p, p)
    decreases |p.path|
  {
    if p.path != [] { NotEarlier(Place(p.path[1..], p.k)); }
  }

  lemma WalkCalm(d: Device, faults: Faults)
    requires AllWell(d, faults)
    ensures Calm(Active(d), faults)
  {
    forall l | l in Active(d) ensures faults(l.reg) == Fine {
      WalkExactly(d, l);
      var p :| Visited(d, p) && LinkAt(d, p) == Some(l);
    }
  }

  lemma WalkSeparate(d: Device)
    requires OwnRegisters(d)
    ensures Separate(Active(d))
  {
    var ps := WalkPlaces(d);
    var ls := Active(d);
    forall i, j | 0 <= i < j < |ls| ensures ls[i].reg != ls[j].reg {
      assert ps[i] in ps && ps[j] in ps && Earlier(ps[i], ps[j]);
      NotEarlier(ps[i]);
      assert LinkAt(d, ps[i]) == Some(ls[i]) && LinkAt(d, ps[j]) == Some(ls[j]);
    }
  }

  /**
   * A forced write of a tree brings the variables of every enabled device at the end of enabled devices into
   * the hardware, bit by bit, whatever registers and hardware held.
   */
  lemma TreeHoldsVariables(s: State, d: Device, faults: Faults, p: Place, x: nat, i: nat)
    requires Sized(s) && FitsTree(s, d) && OwnRegisters(d) && AllWell(d, faults) && Visited(d, p)
    requires var l := LinkAt(d, p).value;
             && FieldsDisjoint(l.fields) && x < |l.fields|
             && l.fields[x].bit + i < WIDTH && l.fields[x].mask[i]
    ensures Fits(s, Active(d))
    ensures var l, (t, ok) := LinkAt(d, p).value, WriteLinks(s, Active(d), true, faults);
            && ok && l.reg in t.hw && t.regs[l.reg] == Shadow(t.hw[l.reg], false)
            && var now := t.hw[l.reg];
               (|now| == 1 || |now| == |l.fields|)
               && now[if |now| == 1 then 0 else x][l.fields[x].bit + i] == l.fields[x].value[i]
  {
    hide WriteLinks, Active, Applied, FieldsDisjoint, OwnRegisters, AllWell, FitsTree;
    var l := LinkAt(d, p).value;
    ActiveFits(s, d);
    WalkCalm(d, faults);
    WalkSeparate(d);
    WalkExactly(d, l);
    assert FitsOne(s, l);
    WrittenWords(s, Active(d), true, faults, l.reg);
    ForcedAllSettle(s, Active(d), faults);
    AppliedInside(l, s.regs[l.reg].words, x, i);
  }

  /** The walk that verifies, right after that: every such device's registers are looked at, and no others. */
  lemma TreeVerifies(s: State, d: Device, faults: Faults, hw: map<nat, seq<Bits>>)
    requires Sized(s) && FitsTree(s, d) && AllWell(d, faults) && Fits(s, Active(d))
    requires Sized(WriteLinks(s, Active(d), true, faults).0.(hw := hw))
    requires forall p :: Visited(d, p) && LinkAt(d, p).value.direct ==> LinkAt(d, p).value.fields[0].config
    ensures var t := WriteLinks(s, Active(d), true, faults).0;
            && Fits(t.(hw := hw), Active(d))
            && (VerifyLinks(t.(hw := hw), Active(d), faults)
                <==> forall p :: Visited(d, p) && LinkAt(d, p).value.verify ==>
                       var l := LinkAt(d, p).value;
                       l.reg in hw && Undisturbed(l, t.hw[l.reg], hw[l.reg]))
  {
    hide WriteLinks, Active, Undisturbed, FitsTree, VerifyLinks;
    WalkCalm(d, faults);
    forall l | l in Active(d) && l.direct ensures l.fields[0].config {
      WalkExactly(d, l);
    }
    VerifyAfterWrite(s, Active(d), faults, hw);
    forall p | Visited(d, p) ensures LinkAt(d, p).value in Active(d) {
      WalkExactly(d, LinkAt(d, p).value);
    }
    forall l | l in Active(d) ensures exists p :: Visited(d, p) && LinkAt(d, p) == Some(l) {
      WalkExactly(d, l);
    }
  }
}
