/** Writing and verifying the configuration registers of a device and everything below it. */
module DeviceRegisters {
  import opened Options
  import opened RegisterBits
  import opened ShadowRegister
  import opened RegisterCache
  import opened RegisterLink

  /** Sub-devices in the order they are visited; vacant places are skipped. */
  datatype Device = Device(enabled: bool, links: seq<Link>, subs: seq<Device>)

  type Faults = nat -> Fault

  /* ----- Which registers are written and verified, in order ----- */

  function ConfigLinks(links: seq<Link>): (ls: seq<Link>)
    ensures forall l :: l in ls ==> l in links && HasConfig(l)
  {
    if links == [] then []
    else ConfigLinks(links[..|links| - 1]) + if HasConfig(links[|links| - 1]) then [links[|links| - 1]] else []
  }

  function Active(d: Device): seq<Link>
    decreases d, 0
  {
    if d.enabled then ConfigLinks(d.links) + ActiveSubs(d, |d.subs|) else []
  }

  function ActiveSubs(d: Device, n: nat): seq<Link>
    requires n <= |d.subs|
    decreases d, 0, n
  {
    if n == 0 then [] else ActiveSubs(d, n - 1) + Active(d.subs[n - 1])
  }

  /* ----- Writing ----- */

  predicate FitsOne(s: State, l: Link)
    requires Sized(s)
  {
    l.reg in s.regs && Shaped(l, |s.regs[l.reg].words|)
  }

  ghost predicate Fits(s: State, ls: seq<Link>)
    requires Sized(s)
  {
    forall l :: l in ls ==> FitsOne(s, l)
  }

  function Stored(s: State, l: Link): (t: State)
    requires Sized(s) && FitsOne(s, l)
    ensures Sized(t) && t.regs.Keys == s.regs.Keys
  {
    s.(regs := s.regs[l.reg := SetData(s.regs[l.reg], Applied(l, s.regs[l.reg].words))])
  }

  function WriteLink(s: State, l: Link, force: bool, faults: Faults): (r: (State, bool))
    requires Sized(s) && FitsOne(s, l)
    ensures Sized(r.0)
  {
    WriteRegister(Stored(s, l), true, l.reg, force, faults(l.reg))
  }

  /** The registers keep their sizes. */
  ghost predicate SameSizes(s: State, t: State)
    requires Sized(s) && Sized(t)
  {
    t.regs.Keys == s.regs.Keys && forall r :: r in s.regs ==> |t.regs[r].words| == |s.regs[r].words|
  }

  lemma WriteLinkSizes(s: State, l: Link, force: bool, faults: Faults)
    requires Sized(s) && FitsOne(s, l)
    ensures SameSizes(s, WriteLink(s, l, force, faults).0)
  {
    hide Applied, Shaped;
  }

  lemma FitsKept(s: State, t: State, l: Link)
    requires Sized(s) && Sized(t) && SameSizes(s, t) && FitsOne(s, l)
    ensures FitsOne(t, l)
  {
  }

  /** The registers of a list one after the other, up to the first exception. */
  function WriteLinks(s: State, ls: seq<Link>, force: bool, faults: Faults): (r: (State, bool))
    requires Sized(s) && Fits(s, ls)
    ensures Sized(r.0) && SameSizes(s, r.0)
    decreases |ls|
  {
    if ls == [] then (s, true)
    else
      var n := |ls| - 1;
      var (t, ok) := WriteLinks(s, ls[..n], force, faults);
      FitsKept(s, t, ls[n]);
      if !ok then (t, false)
      else
        WriteLinkSizes(t, ls[n], force, faults);
        WriteLink(t, ls[n], force, faults)
  }

  lemma FitsAllKept(s: State, t: State, ls: seq<Link>)
    requires Sized(s) && Sized(t) && SameSizes(s, t) && Fits(s, ls)
    ensures Fits(t, ls)
  {
    hide FitsOne, SameSizes;
    forall l | l in ls ensures FitsOne(t, l) { FitsKept(s, t, l); }
  }

  /** The last register of a list. */
  lemma WriteLinksLast(s: State, ls: seq<Link>, force: bool, faults: Faults)
    requires Sized(s) && Fits(s, ls) && ls != []
    ensures Fits(s, ls[..|ls| - 1])
    ensures var (t, ok) := WriteLinks(s, ls[..|ls| - 1], force, faults);
            && FitsOne(s, ls[|ls| - 1]) && FitsOne(t, ls[|ls| - 1])
            && WriteLinks(s, ls, force, faults) == if ok then WriteLink(t, ls[|ls| - 1], force, faults) else (t, false)
  {
    hide FitsOne, SameSizes;
    assert ls[|ls| - 1] in ls;
    FitsKept(s, WriteLinks(s, ls[..|ls| - 1], force, faults).0, ls[|ls| - 1]);
  }

  lemma NoLinks(s: State, force: bool, faults: Faults)
    requires Sized(s)
    ensures WriteLinks(s, [], force, faults) == (s, true)
  {
  }

  lemma {:induction false} WriteLinksConcat(s: State, a: seq<Link>, b: seq<Link>, force: bool, faults: Faults)
    requires Sized(s) && Fits(s, a) && Fits(s, b)
    ensures Fits(s, a + b)
    ensures var (t, ok) := WriteLinks(s, a, force, faults);
            && Fits(t, b)
            && WriteLinks(s, a + b, force, faults) == if ok then WriteLinks(t, b, force, faults) else (t, false)
    decreases |b|
  {
    hide FitsOne, WriteLink, SameSizes, WriteLinks;
    var (t, ok) := WriteLinks(s, a, force, faults);
    FitsAllKept(s, t, b);
    if b == [] {
      assert a + b == a;
      NoLinks(t, force, faults);
    } else {
      var n := |b| - 1;
      WriteLinksConcat(s, a, b[..n], force, faults);
      assert (a + b)[..|a + b| - 1] == a + b[..n] && (a + b)[|a + b| - 1] == b[n];
      WriteLinksLast(s, a + b, force, faults);
      WriteLinksLast(t, b, force, faults);
    }
  }

  /* ----- Forced or not ----- */

  /** A register is stale or has been brought in step before: not one nobody ever touched. */
  predicate Ready(s: State, r: nat)
    requires Sized(s)
  {
    r in s.regs && (s.regs[r].stale || r in s.known)
  }

  /** All transactions of the list go well. */
  ghost predicate Calm(ls: seq<Link>, faults: Faults) {
    forall l :: l in ls ==> faults(l.reg) == Fine
  }

  /** For one register, skipping it is the same as forcing it exactly when the hardware has the words already. */
  lemma SkippingOne(s: State, l: Link, faults: Faults)
    requires Sized(s) && FitsOne(s, l) && faults(l.reg) == Fine
    ensures WriteLink(s, l, false, faults).0.hw == WriteLink(s, l, true, faults).0.hw
            <==> Stored(s, l).regs[l.reg].stale || s.hw[l.reg] == Stored(s, l).regs[l.reg].words
  {
    var t := Stored(s, l);
    if !t.regs[l.reg].stale {
      assert WriteLink(s, l, false, faults).0.hw == s.hw;
      assert WriteLink(s, l, true, faults).0.hw == s.hw[l.reg := t.regs[l.reg].words];
    }
  }

  /** The state after a write that goes well. */
  function Told(s: State, r: nat): State
    requires r in s.regs
  {
    var words := s.regs[r].words;
    State(s.regs[r := Shadow(words, false)], s.hw[r := words], s.known + {r})
  }

  lemma ForcedWrite(s: State, r: nat)
    requires Sized(s) && r in s.regs
    ensures WriteRegister(s, true, r, true, Fine) == (Told(s, r), true)
  {
    assert s.regs[r := s.regs[r].(stale := true)][r := Shadow(s.regs[r].words, false)]
           == s.regs[r := Shadow(s.regs[r].words, false)];
  }

  lemma PlainWrite(s: State, r: nat)
    requires Sized(s) && r in s.regs
    requires s.regs[r].stale || (r in s.known && s.hw[r] == s.regs[r].words)
    ensures WriteRegister(s, true, r, false, Fine) == (Told(s, r), true)
  {
    if !s.regs[r].stale {
      var words := s.regs[r].words;
      assert s.regs[r := Shadow(words, false)] == s.regs && s.hw[r := words] == s.hw && s.known + {r} == s.known;
    }
  }

  lemma ToldKeeps(s: State, l: Link)
    requires Sized(s) && FitsOne(s, l) && Coherent(s)
    ensures var t := Stored(s, l);
            && l.reg in t.regs && Sized(Told(t, l.reg)) && Coherent(Told(t, l.reg))
            && (Ready(s, l.reg) ==> t.regs[l.reg].stale || (l.reg in t.known && t.hw[l.reg] == t.regs[l.reg].words))
            && forall r :: Ready(s, r) ==> Ready(Told(t, l.reg), r)
  {
    hide Applied, Shaped;
  }

  lemma SkippingSame(s: State, l: Link, faults: Faults)
    requires Sized(s) && FitsOne(s, l) && Coherent(s) && Ready(s, l.reg) && faults(l.reg) == Fine
    ensures WriteLink(s, l, false, faults) == WriteLink(s, l, true, faults)
    ensures WriteLink(s, l, true, faults).1 && Coherent(WriteLink(s, l, true, faults).0)
    ensures forall r :: Ready(s, r) ==> Ready(WriteLink(s, l, true, faults).0, r)
  {
    hide WriteRegister, Stored, Told, FitsOne, Coherent, Ready;
    ToldKeeps(s, l);
    ForcedWrite(Stored(s, l), l.reg);
    PlainWrite(Stored(s, l), l.reg);
  }

  /** Writing only the stale registers leaves everything exactly as writing all of them. */
  lemma {:induction false} SkippingIsSafe(s: State, ls: seq<Link>, faults: Faults)
    requires Sized(s) && Fits(s, ls) && Coherent(s) && Calm(ls, faults)
    requires forall l :: l in ls ==> Ready(s, l.reg)
    ensures WriteLinks(s, ls, false, faults) == WriteLinks(s, ls, true, faults)
    ensures WriteLinks(s, ls, true, faults).1 && Coherent(WriteLinks(s, ls, true, faults).0)
    ensures forall r :: Ready(s, r) ==> Ready(WriteLinks(s, ls, true, faults).0, r)
    decreases |ls|
  {
    hide FitsOne, WriteLink, Ready, Coherent, WriteLinks;
    if ls == [] {
      NoLinks(s, true, faults);
      NoLinks(s, false, faults);
    } else {
      var n := |ls| - 1;
      WriteLinksLast(s, ls, false, faults);
      WriteLinksLast(s, ls, true, faults);
      SkippingIsSafe(s, ls[..n], faults);
      SkippingSame(WriteLinks(s, ls[..n], true, faults).0, ls[n], faults);
    }
  }

  /**
   * After any run from power-up that keeps to the guard, writing only the stale registers of a tree is
   * the same as writing all of them, if each is stale or has been transacted.
   */
  lemma SkippingIsSafeInRuns(
      regs: map<nat, Shadow>, hw: map<nat, seq<Bits>>, acts: seq<Action>, d: Device, faults: Faults)
    requires Sized(State(regs, hw, {})) && Runs(State(regs, hw, {}), acts)
    requires var s := Run(State(regs, hw, {}), acts);
             Fits(s, Active(d)) && Calm(Active(d), faults) && forall l :: l in Active(d) ==> Ready(s, l.reg)
    ensures var s := Run(State(regs, hw, {}), acts);
            WriteLinks(s, Active(d), false, faults) == WriteLinks(s, Active(d), true, faults)
  {
    hide WriteLinks, Active, Ready, FitsOne;
    RunKeepsCoherent(State(regs, hw, {}), acts);
    SkippingIsSafe(Run(State(regs, hw, {}), acts), Active(d), faults);
  }

  /** A register that nobody has touched is skipped, whatever the hardware holds. */
  lemma UntouchedIsSkipped(s: State, l: Link, faults: Faults)
    requires Sized(s) && FitsOne(s, l) && faults(l.reg) == Fine
    requires !Ready(s, l.reg) && Applied(l, s.regs[l.reg].words) == s.regs[l.reg].words != s.hw[l.reg]
    ensures WriteLink(s, l, false, faults).0.hw == s.hw != WriteLink(s, l, true, faults).0.hw
  {
    assert WriteLink(s, l, true, faults).0.hw[l.reg] == s.regs[l.reg].words;
  }

  /* ----- Verifying ----- */

  /** The register is read into a copy and compared. */
  predicate VerifyOne(s: State, l: Link, faults: Faults)
    requires Sized(s) && FitsOne(s, l)
  {
    var words := s.regs[l.reg].words;
    match faults(l.reg)
    case Fine => Agrees(l, words, s.hw[l.reg])
    case Stray(buffer) => Agrees(l, words, Copied(words, buffer))
    case _ => false
  }

  predicate VerifyLinks(s: State, ls: seq<Link>, faults: Faults)
    requires Sized(s) && Fits(s, ls)
  {
    forall l :: l in ls && l.verify ==> VerifyOne(s, l, faults)
  }

  /** In step with the hardware and not stale. */
  predicate Settled(s: State, r: nat)
    requires Sized(s)
  {
    r in s.regs && !s.regs[r].stale && s.hw[r] == s.regs[r].words
  }

  lemma ForcedSettles(s: State, l: Link, faults: Faults)
    requires Sized(s) && FitsOne(s, l) && faults(l.reg) == Fine
    ensures WriteLink(s, l, true, faults).1 && Settled(WriteLink(s, l, true, faults).0, l.reg)
    ensures forall r :: Settled(s, r) ==> Settled(WriteLink(s, l, true, faults).0, r)
  {
  }

  lemma {:induction false} ForcedAllSettle(s: State, ls: seq<Link>, faults: Faults)
    requires Sized(s) && Fits(s, ls) && Calm(ls, faults)
    ensures WriteLinks(s, ls, true, faults).1
    ensures forall l :: l in ls ==> Settled(WriteLinks(s, ls, true, faults).0, l.reg)
    decreases |ls|
  {
    hide FitsOne, WriteLink, WriteLinks, Settled;
    if ls == [] {
      NoLinks(s, true, faults);
    } else {
      var n := |ls| - 1;
      WriteLinksLast(s, ls, true, faults);
      ForcedAllSettle(s, ls[..n], faults);
      ForcedSettles(WriteLinks(s, ls[..n], true, faults).0, ls[n], faults);
      forall l | l in ls ensures Settled(WriteLinks(s, ls, true, faults).0, l.reg) {
        if l !in ls[..n] { assert l == ls[n]; }
      }
    }
  }

  /** What the hardware may do by itself to a register and still be found in order. */
  ghost predicate Undisturbed(l: Link, words: seq<Bits>, now: seq<Bits>) {
    |now| == |words| && if |words| == 1 then SameConfig(l.fields, words[0], now[0]) else now == words
  }

  /**
   * A register passes exactly when its read returns and what that brings, the hardware's words or those of a
   * response not its own, is undisturbed.
   */
  lemma VerifiesExactly(s: State, l: Link, faults: Faults, got: seq<Bits>)
    requires Sized(s) && FitsOne(s, l) && (l.direct ==> l.fields[0].config)
    requires var words, f := s.regs[l.reg].words, faults(l.reg);
             && |got| == |words|
             && (f.Fine? ==> got == s.hw[l.reg])
             && (f.Stray? ==> forall i :: 0 <= i < |got| ==>
                   got[i] == if i < |f.buffer| then f.buffer[i] else words[i])
    ensures VerifyOne(s, l, faults)
            <==> (faults(l.reg).Fine? || faults(l.reg).Stray?) && Undisturbed(l, s.regs[l.reg].words, got)
  {
    hide SameConfig, Shaped;
    var words, f := s.regs[l.reg].words, faults(l.reg);
    if f.Stray? { assert got == Copied(words, f.buffer); }
    if |words| == 1 {
      assert words == [words[0]] && got == [got[0]];
      AgreesExactly(l, words[0], got[0]);
    }
  }

  /**
   * After a forced write, verification passes exactly when the configuration variables of one-word
   * registers, and all words of larger ones, are still what was written.
   */
  lemma VerifyAfterWrite(s: State, ls: seq<Link>, faults: Faults, hw: map<nat, seq<Bits>>)
    requires Sized(s) && Fits(s, ls) && Calm(ls, faults)
    requires Sized(WriteLinks(s, ls, true, faults).0.(hw := hw))
    requires forall l :: l in ls && l.direct ==> l.fields[0].config
    ensures var t := WriteLinks(s, ls, true, faults).0;
            && Fits(t.(hw := hw), ls)
            && (VerifyLinks(t.(hw := hw), ls, faults)
                <==> forall l :: l in ls && l.verify ==> Undisturbed(l, t.hw[l.reg], hw[l.reg]))
  {
    var t := WriteLinks(s, ls, true, faults).0;
    hide WriteLinks, VerifyOne, Undisturbed, FitsOne;
    var u := t.(hw := hw);
    ForcedAllSettle(s, ls, faults);
    FitsAllKept(s, u, ls);
    forall l | l in ls && l.verify ensures VerifyOne(u, l, faults) <==> Undisturbed(l, t.hw[l.reg], hw[l.reg]) {
      assert Settled(t, l.reg) && FitsOne(u, l);
      VerifiesExactly(u, l, faults, hw[l.reg]);
    }
  }

  /** Each register is written once. */
  ghost predicate Separate(ls: seq<Link>) {
    forall i, j :: 0 <= i < j < |ls| ==> ls[i].reg != ls[j].reg
  }

  /** What the hardware holds after the register of a link has been written. */
  function Sent(s: State, l: Link, force: bool): seq<Bits>
    requires Sized(s) && FitsOne(s, l)
  {
    if force || Stored(s, l).regs[l.reg].stale then Stored(s, l).regs[l.reg].words else s.hw[l.reg]
  }

  lemma WriteLinkOthers(s: State, l: Link, force: bool, faults: Faults, r: nat)
    requires Sized(s) && FitsOne(s, l) && r in s.regs && r != l.reg
    ensures WriteLink(s, l, force, faults).0.regs[r] == s.regs[r]
    ensures WriteLink(s, l, force, faults).0.hw[r] == s.hw[r]
  {
    hide Applied, Shaped, WriteRegister;
    var t := Stored(s, l);
    if force || t.regs[l.reg].stale { WriteTells(t, l.reg, force, faults(l.reg)); }
    else { WriteSkips(t, l.reg, true, force, faults(l.reg)); }
  }

  lemma WriteLinkOwn(s: State, l: Link, force: bool, faults: Faults)
    requires Sized(s) && FitsOne(s, l) && faults(l.reg) == Fine
    ensures WriteLink(s, l, force, faults).1
    ensures WriteLink(s, l, force, faults).0.hw[l.reg] == Sent(s, l, force)
  {
  }

  lemma SentAlike(s: State, t: State, l: Link, force: bool)
    requires Sized(s) && Sized(t) && FitsOne(s, l) && FitsOne(t, l)
    requires t.regs[l.reg] == s.regs[l.reg] && t.hw[l.reg] == s.hw[l.reg]
    ensures Sent(t, l, force) == Sent(s, l, force)
  {
  }

  lemma {:induction false} WrittenWords(s: State, ls: seq<Link>, force: bool, faults: Faults, r: nat)
    requires Sized(s) && Fits(s, ls) && Calm(ls, faults) && Separate(ls) && r in s.regs
    ensures WriteLinks(s, ls, force, faults).1
    ensures var t := WriteLinks(s, ls, force, faults).0;
            && ((forall l :: l in ls ==> l.reg != r) ==> t.regs[r] == s.regs[r] && t.hw[r] == s.hw[r])
            && forall l :: l in ls && l.reg == r ==> FitsOne(s, l) && t.hw[r] == Sent(s, l, force)
    decreases |ls|
  {
    hide FitsOne, WriteLink, WriteLinks, Applied, Shaped, Sent;
    if ls == [] {
      NoLinks(s, force, faults);
    } else {
      var n := |ls| - 1;
      WriteLinksLast(s, ls, force, faults);
      var t := WriteLinks(s, ls[..n], force, faults).0;
      WrittenWords(s, ls[..n], force, faults, r);
      WriteLinkOwn(t, ls[n], force, faults);
      if ls[n].reg != r {
        WriteLinkOthers(t, ls[n], force, faults, r);
      } else {
        SentAlike(s, t, ls[n], force);
      }
    }
  }

  /** Skipping the register makes no difference: it is not skipped, or the hardware has its words. */
  predicate There(s: State, l: Link)
    requires Sized(s) && FitsOne(s, l)
  {
    var reg := Stored(s, l).regs[l.reg];
    reg.stale || s.hw[l.reg] == reg.words
  }

  lemma ThereExactly(s: State, l: Link)
    requires Sized(s) && FitsOne(s, l)
    ensures Sent(s, l, false) == Sent(s, l, true) <==> There(s, l)
  {
  }

  lemma SkippingAt(s: State, ls: seq<Link>, faults: Faults, r: nat)
    requires Sized(s) && Fits(s, ls) && Calm(ls, faults) && Separate(ls) && r in s.regs
    ensures WriteLinks(s, ls, false, faults).0.hw[r] == WriteLinks(s, ls, true, faults).0.hw[r]
            <==> forall l :: l in ls && l.reg == r ==> FitsOne(s, l) && There(s, l)
  {
    hide FitsOne, WriteLinks, Stored, Sent, There;
    WrittenWords(s, ls, false, faults, r);
    WrittenWords(s, ls, true, faults, r);
    forall l | l in ls && l.reg == r ensures FitsOne(s, l) && (There(s, l) <==> Sent(s, l, false) == Sent(s, l, true)) {
      ThereExactly(s, l);
    }
  }

  /**
   * Writing only the stale registers leaves the same in the hardware as writing all of them exactly when
   * each that is not stale is there already.
   */
  lemma SkippingExactly(s: State, ls: seq<Link>, faults: Faults)
    requires Sized(s) && Fits(s, ls) && Calm(ls, faults) && Separate(ls)
    ensures WriteLinks(s, ls, false, faults).0.hw == WriteLinks(s, ls, true, faults).0.hw
            <==> forall l :: l in ls ==> FitsOne(s, l) && There(s, l)
  {
    hide WriteLinks, There;
    var t, u := WriteLinks(s, ls, false, faults).0, WriteLinks(s, ls, true, faults).0;
    assert t.hw.Keys == u.hw.Keys == s.regs.Keys;
    forall l | l in ls ensures FitsOne(s, l) && (t.hw == u.hw ==> There(s, l)) {
      SkippingAt(s, ls, faults, l.reg);
    }
    if forall l :: l in ls ==> There(s, l) {
      forall r | r in s.regs ensures t.hw[r] == u.hw[r] {
        SkippingAt(s, ls, faults, r);
      }
    }
  }

  /** A forced write brings every variable into the hardware, as far as it fits its field. */
  lemma HardwareHoldsVariables(s: State, ls: seq<Link>, faults: Faults, l: Link, x: nat)
    requires Sized(s) && Fits(s, ls) && Calm(ls, faults) && Separate(ls)
    requires l in ls && FieldsDisjoint(l.fields) && x < |l.fields|
    ensures var now := WriteLinks(s, ls, true, faults).0.hw[l.reg];
            Shaped(l, |now|) && Taken(l, now)[x] == Kept(l.fields[x])
  {
    assert FitsOne(s, l);
    WrittenWords(s, ls, true, faults, l.reg);
    VariablesReadBack(l, s.regs[l.reg].words, x);
  }

  /* ----- Reading ----- */

  /** Reading the register of a link and taking its variables from it, unless the read fails. */
  function ReadLink(s: State, l: Link, faults: Faults): (r: (State, Option<seq<Bits>>))
    requires Sized(s) && FitsOne(s, l)
    ensures Sized(r.0)
  {
    var (t, ok) := ReadRegister(s, true, l.reg, faults(l.reg));
    ReadBrings(s, l.reg, faults(l.reg));
    (t, if ok then Some(Taken(l, t.regs[l.reg].words)) else None)
  }

  /** A read that goes well gives every variable what stands in its field in the hardware, bit by bit. */
  lemma ReadGivesVariables(s: State, l: Link, faults: Faults, x: nat, i: nat)
    requires Sized(s) && FitsOne(s, l) && faults(l.reg) == Fine && x < |l.fields| && i < WIDTH
    ensures var (t, values) := ReadLink(s, l, faults);
            && t.hw == s.hw && t.regs[l.reg].words == s.hw[l.reg]
            && values.Some? && |values.value| == |l.fields|
            && var f, w := l.fields[x], s.hw[l.reg][if |s.hw[l.reg]| == 1 then 0 else x];
               values.value[x][i] == (i + f.bit < WIDTH && w[i + f.bit] && f.mask[i])
  {
    hide Taken, ReadRegister;
    ReadBrings(s, l.reg, Fine);
    TakenAt(l, s.hw[l.reg], x, i);
  }

  /** Whatever the register is set to in between, a forced write is read back as far as each field reaches. */
  lemma WrittenIsReadBack(s: State, l: Link, faults: Faults, u: State, x: nat)
    requires Sized(s) && FitsOne(s, l) && faults(l.reg) == Fine && FieldsDisjoint(l.fields) && x < |l.fields|
    requires Sized(u) && FitsOne(u, l) && u.hw == WriteLink(s, l, true, faults).0.hw
    ensures var values := ReadLink(u, l, faults).1; values.Some? && values.value[x] == Kept(l.fields[x])
  {
    hide Taken, Applied, ReadRegister, WriteLink, Kept;
    ReadBrings(u, l.reg, Fine);
    WriteLinkOwn(s, l, true, faults);
    VariablesReadBack(l, s.regs[l.reg].words, x);
  }
}
