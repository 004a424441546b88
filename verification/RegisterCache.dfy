/** Registers, the hardware behind them, and what the stale flags say about the two. */
module RegisterCache {
  import opened RegisterBits
  import opened ShadowRegister

  /**
   * How a waited transaction goes: well, failing before it reaches the device, failing with the device having
   * done what it was asked to, or returning as if well on a response that is not its own, which brings
   * `buffer` into the receive register.
   */
  datatype Fault = Fine | Lost | Refused | Stray(buffer: seq<Bits>)

  datatype State = State(
    regs: map<nat, Shadow>,
    hw: map<nat, seq<Bits>>,
    known: set<nat>           // history: registers with a completed transaction
  )

  predicate Sized(s: State) {
    && s.regs.Keys == s.hw.Keys && s.known <= s.regs.Keys
    && forall r :: r in s.regs ==> |s.hw[r]| == |s.regs[r].words|
  }

  function AllOnes(n: nat): (ws: seq<Bits>)
    ensures |ws| == n
  {
    seq(n, _ => ONES)
  }

  /** The words of a register after a response has been copied; one that is too short leaves the rest. */
  function Copied(words: seq<Bits>, buffer: seq<Bits>): (ws: seq<Bits>)
    ensures |ws| == |words|
  {
    if |buffer| < |words| then buffer + words[|buffer|..] else buffer[..|words|]
  }

  /** `queueRegister` for a write: the flag is cleared only when it succeeds. */
  function QueueWrite(s: State, r: nat, fault: Fault): (t: (State, bool))
    requires Sized(s) && r in s.regs
    ensures Sized(t.0) && t.0.regs.Keys == s.regs.Keys
  {
    var words := s.regs[r].words;
    match fault
    case Fine => (State(s.regs[r := Shadow(words, false)], s.hw[r := words], s.known + {r}), true)
    case Lost => (s, false)
    case Refused => (s.(hw := s.hw[r := words]), false)
    case Stray(_) => (State(s.regs[r := Shadow(words, false)], s.hw, s.known + {r}), true)
  }

  /** For a read: a response with an error status fills the register with ones. */
  function QueueRead(s: State, r: nat, fault: Fault): (t: (State, bool))
    requires Sized(s) && r in s.regs
    ensures Sized(t.0) && t.0.regs.Keys == s.regs.Keys
  {
    match fault
    case Fine => (State(s.regs[r := Shadow(s.hw[r], false)], s.hw, s.known + {r}), true)
    case Lost => (s, false)
    case Refused => (s.(regs := s.regs[r := s.regs[r].(words := AllOnes(|s.regs[r].words|))]), false)
    case Stray(buffer) =>
      (State(s.regs[r := Shadow(Copied(s.regs[r].words, buffer), false)], s.hw, s.known + {r}), true)
  }

  /** `writeRegister`: skipped when disabled or not stale. False stands for the exception. */
  function WriteRegister(s: State, enabled: bool, r: nat, force: bool, fault: Fault): (t: (State, bool))
    requires Sized(s) && r in s.regs
    ensures Sized(t.0) && t.0.regs.Keys == s.regs.Keys
  {
    var t := if force then s.(regs := s.regs[r := s.regs[r].(stale := true)]) else s;
    if !enabled || !t.regs[r].stale then (t, true) else QueueWrite(t, r, fault)
  }

  function ReadRegister(s: State, enabled: bool, r: nat, fault: Fault): (t: (State, bool))
    requires Sized(s) && r in s.regs
    ensures Sized(t.0) && t.0.regs.Keys == s.regs.Keys
  {
    if !enabled then (s, true) else QueueRead(s, r, fault)
  }

  /** Nothing but register `r` and its place in the hardware is touched. */
  ghost predicate Elsewhere(s: State, t: State, r: nat)
    requires Sized(s) && Sized(t)
  {
    && t.regs.Keys == s.regs.Keys && t.known - {r} == s.known - {r}
    && forall x :: x in s.regs && x != r ==> t.regs[x] == s.regs[x] && t.hw[x] == s.hw[x]
  }

  /**
   * A read that goes well brings what the hardware holds, a refused one fills the register with ones and
   * leaves its flag, and one that returns on another response brings the words of that.
   */
  lemma ReadBrings(s: State, r: nat, fault: Fault)
    requires Sized(s) && r in s.regs
    ensures var (t, ok) := ReadRegister(s, true, r, fault);
            && Elsewhere(s, t, r) && t.hw == s.hw && (ok <==> fault.Fine? || fault.Stray?)
            && (ok ==> !t.regs[r].stale && r in t.known)
            && (!ok ==> t.regs[r].stale == s.regs[r].stale && t.known == s.known)
            && |t.regs[r].words| == |s.regs[r].words|
            && (fault.Fine? ==> t.regs[r].words == s.hw[r])
            && (fault.Lost? ==> t.regs[r].words == s.regs[r].words)
            && (fault.Refused? ==> forall i :: 0 <= i < |t.regs[r].words| ==> t.regs[r].words[i] == ONES)
            && (fault.Stray? ==> forall i :: 0 <= i < |t.regs[r].words| ==>
                  t.regs[r].words[i] == if i < |fault.buffer| then fault.buffer[i] else s.regs[r].words[i])
    ensures ReadRegister(s, false, r, fault) == (s, true)
  {
    var t := ReadRegister(s, true, r, fault).0;
    assert s.hw.Keys == s.regs.Keys;
  }

  /**
   * A write of a register that is stale, or forced: the hardware gets its words unless the request does not
   * reach it or was never sent, the words stay, and the register is stale afterwards exactly after a failure.
   */
  lemma WriteTells(s: State, r: nat, force: bool, fault: Fault)
    requires Sized(s) && r in s.regs && (force || s.regs[r].stale)
    ensures var (t, ok) := WriteRegister(s, true, r, force, fault);
            && Elsewhere(s, t, r) && (ok <==> fault.Fine? || fault.Stray?)
            && t.regs[r].words == s.regs[r].words && (t.regs[r].stale <==> !ok)
            && t.known == s.known + (if ok then {r} else {})
            && t.hw[r] == if fault.Fine? || fault.Refused? then s.regs[r].words else s.hw[r]
  {
  }

  /** Otherwise nothing is sent; a force is remembered by a device that is not enabled. */
  lemma WriteSkips(s: State, r: nat, enabled: bool, force: bool, fault: Fault)
    requires Sized(s) && r in s.regs && (!enabled || (!force && !s.regs[r].stale))
    ensures var (t, ok) := WriteRegister(s, enabled, r, force, fault);
            && ok && t.hw == s.hw && t.known == s.known && Elsewhere(s, t, r)
            && t.regs[r].words == s.regs[r].words && (t.regs[r].stale <==> s.regs[r].stale || force)
  {
  }

  /** A register that has been transacted and is not stale is what the hardware has. */
  ghost predicate Coherent(s: State)
    requires Sized(s)
  {
    forall r :: r in s.known && !s.regs[r].stale ==> s.hw[r] == s.regs[r].words
  }

  datatype Action =
    | Field(reg: nat, index: nat, value: Bits, bit: nat, mask: Bits)
    | Bulk(reg: nat, data: seq<Bits>)
    | Write(reg: nat, enabled: bool, force: bool, fault: Fault)
    | Read(reg: nat, enabled: bool, fault: Fault)
    | AllStale(regs: set<nat>)
    | Land(reg: nat, words: seq<Bits>)      // a write that was sent long ago reaches the device

  predicate Enabled(s: State, a: Action)
    requires Sized(s)
  {
    match a
    case Field(r, _, _, _, _) => r in s.regs
    case Bulk(r, data) => r in s.regs && |data| == |s.regs[r].words|
    case Write(r, _, _, _) => r in s.regs
    case Read(r, _, _) => r in s.regs
    case AllStale(rs) => rs <= s.regs.Keys
    case Land(r, ws) => r in s.regs && |ws| == |s.hw[r]|
  }

  function Next(s: State, a: Action): (t: State)
    requires Sized(s) && Enabled(s, a)
    ensures Sized(t)
  {
    match a
    case Field(r, i, v, b, m) => s.(regs := s.regs[r := SetIndex(s.regs[r], i, v, b, m)])
    case Bulk(r, data) => s.(regs := s.regs[r := SetData(s.regs[r], data)])
    case Write(r, enabled, force, fault) => WriteRegister(s, enabled, r, force, fault).0
    case Read(r, enabled, fault) => ReadRegister(s, enabled, r, fault).0
    case AllStale(rs) =>
      s.(regs := map r | r in s.regs :: if r in rs then s.regs[r].(stale := true) else s.regs[r])
    case Land(r, ws) => s.(hw := s.hw[r := ws])
  }

  /** The flag says that the hardware has the words of the register. */
  predicate Trusted(s: State, r: nat)
    requires Sized(s) && r in s.regs
  {
    r in s.known && !s.regs[r].stale
  }

  /**
   * What keeps the flags right: a write that returns on a response not its own had nothing new to say, a
   * read that does so brings what the hardware has, and a trusted register sees no refused read and no late
   * write, unless it makes no difference.
   */
  predicate KeepsStep(s: State, a: Action)
    requires Sized(s) && Enabled(s, a)
  {
    match a
    case Write(r, enabled, force, fault) =>
      enabled && (force || s.regs[r].stale) && fault.Stray? ==> s.hw[r] == s.regs[r].words
    case Read(r, enabled, Refused) =>
      enabled && Trusted(s, r) ==> s.regs[r].words == AllOnes(|s.regs[r].words|)
    case Read(r, enabled, Stray(buffer)) => enabled ==> s.hw[r] == Copied(s.regs[r].words, buffer)
    case Land(r, words) => Trusted(s, r) ==> words == s.regs[r].words
    case _ => true
  }

  predicate InStep(s: State, r: nat)
    requires Sized(s) && r in s.regs
  {
    Trusted(s, r) ==> s.hw[r] == s.regs[r].words
  }

  lemma CoherentIsInStep(s: State)
    requires Sized(s)
    ensures Coherent(s) <==> forall r :: r in s.regs ==> InStep(s, r)
  {
  }

  /** A step on one register decides there. */
  lemma OneRegister(s: State, t: State, r: nat)
    requires Sized(s) && Sized(t) && Coherent(s) && r in s.regs && Elsewhere(s, t, r)
    ensures Coherent(t) <==> InStep(t, r)
  {
    forall x | x in s.regs && x != r ensures InStep(t, x) {
      assert x in t.known - {r} <==> x in s.known - {r};
    }
    CoherentIsInStep(t);
  }

  lemma WriteInStep(s: State, r: nat, enabled: bool, force: bool, fault: Fault)
    requires Sized(s) && r in s.regs && InStep(s, r)
    ensures InStep(WriteRegister(s, enabled, r, force, fault).0, r)
            <==> KeepsStep(s, Write(r, enabled, force, fault))
  {
  }

  lemma ReadInStep(s: State, r: nat, enabled: bool, fault: Fault)
    requires Sized(s) && r in s.regs && InStep(s, r)
    ensures InStep(ReadRegister(s, enabled, r, fault).0, r) <==> KeepsStep(s, Read(r, enabled, fault))
  {
    hide Copied, AllOnes;
  }

  lemma ChangeInStep(s: State, r: nat, reg: Shadow)
    requires Sized(s) && r in s.regs && InStep(s, r)
    requires |reg.words| == |s.regs[r].words| && (s.regs[r].stale ==> reg.stale)
    requires reg.words != s.regs[r].words ==> reg.stale
    ensures InStep(s.(regs := s.regs[r := reg]), r)
  {
  }

  /** Exactly the named registers become stale, and nothing else changes. */
  lemma AllStaleMarks(s: State, rs: set<nat>)
    requires Sized(s) && Enabled(s, AllStale(rs))
    ensures var t := Next(s, AllStale(rs));
            && t.hw == s.hw && t.known == s.known && t.regs.Keys == s.regs.Keys
            && forall r :: r in s.regs ==>
                 t.regs[r].words == s.regs[r].words && (t.regs[r].stale <==> s.regs[r].stale || r in rs)
  {
  }

  lemma AllStaleCoherent(s: State, rs: set<nat>)
    requires Sized(s) && Enabled(s, AllStale(rs)) && Coherent(s)
    ensures Coherent(Next(s, AllStale(rs)))
  {
  }

  /** Coherence survives a step exactly under the guard. */
  lemma StepCoherent(s: State, a: Action)
    requires Sized(s) && Enabled(s, a) && Coherent(s)
    ensures Coherent(Next(s, a)) <==> KeepsStep(s, a)
  {
    hide Coherent, WriteRegister, ReadRegister, SetIndex, SetData;
    CoherentIsInStep(s);
    match a
    case AllStale(rs) => AllStaleCoherent(s, rs);
    case Write(r, enabled, force, fault) =>
      WriteInStep(s, r, enabled, force, fault);
      if enabled && (force || s.regs[r].stale) { WriteTells(s, r, force, fault); }
      else { WriteSkips(s, r, enabled, force, fault); }
      OneRegister(s, Next(s, a), r);
    case Read(r, enabled, fault) =>
      ReadInStep(s, r, enabled, fault);
      ReadBrings(s, r, fault);
      OneRegister(s, Next(s, a), r);
    case Field(r, i, v, b, m) =>
      ChangeInStep(s, r, SetIndex(s.regs[r], i, v, b, m));
      OneRegister(s, Next(s, a), r);
    case Bulk(r, data) =>
      SetDataStales(s.regs[r], data);
      ChangeInStep(s, r, SetData(s.regs[r], data));
      OneRegister(s, Next(s, a), r);
    case Land(r, _) => OneRegister(s, Next(s, a), r);
  }

  lemma SetDataStales(reg: Shadow, data: seq<Bits>)
    requires |data| == |reg.words|
    ensures SetData(reg, data).words == data && (SetData(reg, data).stale <==> reg.stale || data != reg.words)
  {
  }

  predicate Runs(s: State, acts: seq<Action>)
    requires Sized(s)
    decreases |acts|
  {
    acts == [] || (Enabled(s, acts[0]) && KeepsStep(s, acts[0]) && Runs(Next(s, acts[0]), acts[1..]))
  }

  function Run(s: State, acts: seq<Action>): (t: State)
    requires Sized(s) && Runs(s, acts)
    ensures Sized(t)
    decreases |acts|
  {
    if acts == [] then s else Run(Next(s, acts[0]), acts[1..])
  }

  lemma {:induction false} RunKeepsCoherent(s: State, acts: seq<Action>)
    requires Sized(s) && Coherent(s) && Runs(s, acts)
    ensures Coherent(Run(s, acts))
    decreases |acts|
  {
    if acts != [] {
      StepCoherent(s, acts[0]);
      RunKeepsCoherent(Next(s, acts[0]), acts[1..]);
    }
  }

  /** From power-up, whatever the hardware holds, over every run that keeps to the guard. */
  lemma CoherentFromStart(regs: map<nat, Shadow>, hw: map<nat, seq<Bits>>, acts: seq<Action>, r: nat)
    requires Sized(State(regs, hw, {})) && Runs(State(regs, hw, {}), acts)
    ensures var t := Run(State(regs, hw, {}), acts);
            r in t.known && !t.regs[r].stale ==> t.hw[r] == t.regs[r].words
  {
    RunKeepsCoherent(State(regs, hw, {}), acts);
  }

  /** A write that returns on a response not its own is not repeated: its words never reach the hardware. */
  lemma StrayWriteIsNotRepeated(s: State, r: nat, buffer: seq<Bits>)
    requires Sized(s) && r in s.regs && s.regs[r].stale && s.hw[r] != s.regs[r].words
    ensures var (t, ok) := WriteRegister(s, true, r, false, Stray(buffer));
            ok && t.hw == s.hw && WriteRegister(t, true, r, false, Fine) == (t, true) && !InStep(t, r)
  {
  }

  /** Afterwards such a register is skipped although the hardware does not have the new words. */
  lemma RefusedReadSkipsWrite(s: State, r: nat)
    requires Sized(s) && r in s.known && !s.regs[r].stale && s.hw[r] != AllOnes(|s.hw[r]|)
    ensures var t := Next(Next(s, Read(r, true, Refused)), Bulk(r, AllOnes(|s.regs[r].words|)));
            var u := Next(t, Write(r, true, false, Fine));
            u.regs[r].words == AllOnes(|s.regs[r].words|) && !u.regs[r].stale && u.hw[r] == s.hw[r] != u.regs[r].words
  {
  }
}
