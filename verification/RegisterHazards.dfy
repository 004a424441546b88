/** Hazards are exact: at each of them a call can return without being the device's last word at its address. */
module RegisterHazards {
  import opened Options
  import opened Words
  import opened RegisterProtocol
  import opened RegisterRuns
  import opened RegisterDevice

  /* ----- From a request on the link to the return ----- */

  /** An attempt is waited for, and what is said about its register fits the receive register. */
  predicate Awaits(u: System) {
    && Known(u) && u.call.requester.Issued? && u.call.wait
    && u.call.requester.currResp <= u.rx.respCnt && |Entry(u).words| <= |u.rx.buffer|
  }

  /** `t` is `u` at the end of the attempt, after the requests `done` have been carried out. */
  ghost predicate Ends(u: System, acts: seq<Action>, done: seq<Request>)
    requires u.call.entry in u.regs
  {
    && EndsAttempt(u, acts)
    && var t := Run(u, acts + [CHECK]);
       && t.call == u.call.(requester := Idle, outcome := Returned)
       && t.net.log == u.net.log + done
       && t.call.entry in t.regs && Entry(t).address == Entry(u).address
       && (Firm(u) ==> Entry(t).words == Entry(u).words)
  }

  lemma EndsLater(u: System, a: Action, acts: seq<Action>, done: seq<Request>, more: seq<Request>)
    returns (all: seq<Action>)
    requires u.call.entry in u.regs && Enabled(u, a) && a != ADVANCE
    requires var v := Next(u, a);
             && v.call == u.call && v.call.entry in v.regs && Entry(v).address == Entry(u).address
             && (Firm(u) ==> Firm(v) && Entry(v).words == Entry(u).words)
             && v.net.log == u.net.log + more && Ends(v, acts, done)
    ensures Ends(u, all, more + done)
    ensures Run(u, all + [CHECK]) == Run(Next(u, a), acts + [CHECK])
  {
    hide Enabled, Next, Runs, Run, Firm;
    all := [a] + acts;
    assert all + [CHECK] == [a] + (acts + [CHECK]);
    RunOne(u, a, acts + [CHECK]);
    assert u.net.log + more + done == u.net.log + (more + done);
  }

  /** The answer to the attempt is on its way. */
  lemma Delivered(u: System, r: Response) returns (acts: seq<Action>)
    requires Awaits(u) && u.rx.pc == Listening && r in u.net.responses
    requires OwnAnswer(u, r) && r.status == 0 && |r.words| <= |u.rx.buffer|
    ensures Ends(u, acts, [])
  {
    hide Runs, Run;
    var a := Receiving(Receive(r));
    var v := Next(u, a);
    assert Loose(v);
    var rest := LooseReturns(v);
    acts := EndsLater(u, a, rest, [], []);
  }

  /** What the device answers when all goes well. */
  function Reply(n: Net, q: Request): Response {
    Response(q.context, q.address, 0, if q.write then [] else Memory(n, q.address))
  }

  /** An older write is carried out before the answer is looked at. */
  lemma Overtaken(u: System, r: Response, late: Option<Request>) returns (acts: seq<Action>)
    requires Awaits(u) && u.rx.pc == Listening && r in u.net.responses
    requires OwnAnswer(u, r) && r.status == 0 && |r.words| <= |u.rx.buffer|
    requires late.Some? ==> late.value in u.net.requests
    ensures Ends(u, acts, if late.Some? then [late.value] else [])
  {
    hide Runs, Run, Ends;
    if late.None? {
      acts := Delivered(u, r);
    } else {
      var q := late.value;
      var a := Linking(Process(q, Response(q.context, q.address, 1, []), true));
      var rest := Delivered(Next(u, a), r);
      acts := EndsLater(u, a, rest, [], [q]);
      assert [q] + [] == [q];
    }
  }

  function Finished(q: Request, late: Option<Request>): seq<Request> {
    [q] + if late.Some? then [late.value] else []
  }

  /** The request of the attempt is on its way, and possibly an older write. */
  lemma Carried(u: System, q: Request, late: Option<Request>) returns (acts: seq<Action>)
    requires Awaits(u) && u.rx.pc == Listening && q in u.net.requests && OwnRequest(u, q)
    requires |Memory(u.net, q.address)| <= |u.rx.buffer|
    requires late.Some? ==> late.value in u.net.requests - {q}
    ensures Ends(u, acts, Finished(q, late))
  {
    hide Runs, Run, Ends, Memory;
    var a := Linking(Process(q, Reply(u.net, q), true));
    var rest := Overtaken(Next(u, a), Reply(u.net, q), late);
    acts := EndsLater(u, a, rest, if late.Some? then [late.value] else [], [q]);
  }

  /** What a response in hand does to the words of a register that is being written, once it is copied. */
  ghost predicate Scribbled(u: System, acts: seq<Action>)
    requires u.call.entry in u.regs && Runs(u, acts + [CHECK])
  {
    var t := Run(u, acts + [CHECK]);
    u.call.write && u.rx.pc.Copying? && u.rx.pc.response.status != 0 ==>
      t.call.entry in t.regs && Entry(t).words == AllOnes(|Entry(u).words|)
  }

  /** First the response in hand. */
  lemma {:induction false} HandFinished(u: System, q: Request, late: Option<Request>) returns (acts: seq<Action>)
    requires Awaits(u) && q in u.net.requests && OwnRequest(u, q)
    requires |Memory(u.net, q.address)| <= |u.rx.buffer|
    requires late.Some? ==> late.value in u.net.requests - {q}
    ensures Ends(u, acts, Finished(q, late)) && Scribbled(u, acts)
    decreases Left(u.rx.pc)
  {
    hide Runs, Run, Memory, AllOnes;
    if u.rx.pc == Listening {
      acts := Carried(u, q, late);
    } else {
      var a := Receiving(HandStep(u.rx.pc));
      HandOn(u, q);
      var rest := HandFinished(Next(u, a), q, late);
      acts := EndsLater(u, a, rest, Finished(q, late), []);
      assert [] + Finished(q, late) == Finished(q, late);
    }
  }

  lemma HandOn(u: System, q: Request)
    requires Awaits(u) && u.rx.pc != Listening && OwnRequest(u, q)
    ensures Enabled(u, Receiving(HandStep(u.rx.pc)))
    ensures var v := Next(u, Receiving(HandStep(u.rx.pc)));
            && Awaits(v) && Left(v.rx.pc) < Left(u.rx.pc) && v.call == u.call && v.io == u.io && v.net == u.net
            && OwnRequest(v, q) && |v.rx.buffer| == |u.rx.buffer|
            && Entry(v).address == Entry(u).address && (Firm(u) ==> Firm(v) && Entry(v).words == Entry(u).words)
            && (u.call.write && u.rx.pc.Copying? && u.rx.pc.response.status != 0 ==>
                  Firm(v) && Entry(v).words == AllOnes(|Entry(u).words|))
  {
    hide AllOnes;
    AllOnesSize(|Entry(u).words|);
  }

  /** The attempt has not been sent, and the IO thread is going to. */
  predicate Sends(u: System)
    requires Known(u)
  {
    Reaches(u) && (u.io.pc == Resting ==> u.io.lastReqCnt != u.call.reqCnt)
  }

  function FrameAhead(u: System): Request
    requires Known(u)
  {
    var reg := if u.io.pc.Loaded? then u.regs[u.io.pc.reg] else Entry(u);
    Request(u.call.reqCnt, Entry(u).address, FrameKind(u), if FrameKind(u) then reg.words else [])
  }

  function SendStep(pc: Sender): IoStep {
    match pc
    case Resting => Select
    case Typed(_) => Load
    case Loaded(_, _) => Transmit
    case Sent => Note
  }

  function StepsToSend(pc: Sender): nat {
    match pc
    case Resting => 2
    case Typed(_) => 1
    case _ => 0
  }

  lemma SendOn(u: System)
    requires Awaits(u) && Sends(u)
    ensures Enabled(u, Sending(SendStep(u.io.pc)))
    ensures var v := Next(u, Sending(SendStep(u.io.pc)));
            && Awaits(v) && v.call == u.call && v.rx == u.rx && v.regs == u.regs
            && v.net.log == u.net.log && v.net.origin == u.net.origin && u.net.requests <= v.net.requests
            && if u.io.pc.Loaded? then FrameAhead(u) in v.net.requests
               else Sends(v) && FrameAhead(v) == FrameAhead(u) && StepsToSend(v.io.pc) < StepsToSend(u.io.pc)
  {
  }

  /** First the request of the attempt. */
  lemma {:induction false} FrameSent(u: System, late: Option<Request>) returns (acts: seq<Action>)
    requires Awaits(u) && Sends(u) && |Memory(u.net, Entry(u).address)| <= |u.rx.buffer|
    requires late.Some? ==> late.value in u.net.requests && late.value.context != u.call.reqCnt
    ensures Ends(u, acts, Finished(FrameAhead(u), late)) && Scribbled(u, acts)
    decreases StepsToSend(u.io.pc)
  {
    hide Runs, Run, Memory, AllOnes, Next, Enabled, Awaits, Sends;
    AwaitsKnown(u);
    var a, q := Sending(SendStep(u.io.pc)), FrameAhead(u);
    SendOn(u);
    var v := Next(u, a);
    AwaitsKnown(v);
    MemoryAlike(u.net, v.net, q.address);
    var rest;
    if u.io.pc.Loaded? { rest := HandFinished(v, q, late); } else { rest := FrameSent(v, late); }
    acts := EndsLater(u, a, rest, Finished(q, late), []);
    assert [] + Finished(q, late) == Finished(q, late);
  }

  lemma AwaitsKnown(u: System)
    requires Awaits(u)
    ensures Known(u)
  {
  }

  /* ----- Exactly when ----- */

  /** The words of a register that is being written when the call returns. */
  function Final(u: System): seq<Word>
    requires Known(u)
  {
    if u.rx.pc.Copying? then AllOnes(|Entry(u).words|) else Entry(u).words
  }

  /** Without its request among those carried out as the last word, an attempt is not executed. */
  lemma NotExecuted(u: System, acts: seq<Action>, late: Option<Request>)
    requires Known(u) && Ends(u, acts, Finished(FrameAhead(u), late)) && Scribbled(u, acts)
    requires forall q :: q in u.net.log ==> q.context != u.call.reqCnt
    requires late.Some? ==> WritesTo(late.value, Entry(u).address) && late.value.context != u.call.reqCnt
    requires u.rx.pc.Copying? ==> u.rx.pc.response.status != 0
    requires late.Some? || FrameKind(u) != u.call.write || (u.call.write && FrameAhead(u).words != Final(u))
    ensures !Executed(Run(u, acts + [CHECK]))
  {
    hide Runs, Run, AllOnes;
    var t := Run(u, acts + [CHECK]);
    var q, n := FrameAhead(u), |u.net.log|;
    forall i: nat ensures !LastAt(t, i) {
      if i < n {
        assert t.net.log[i] in u.net.log;
      } else if i == n {
        assert t.net.log[n] == q;
        if late.Some? { assert t.net.log[n + 1] == late.value; }
      } else if i == n + 1 && late.Some? {
        assert t.net.log[i] == late.value;
      }
    }
  }

  lemma NeverSent(u: System, t: System)
    requires u.call.entry in u.regs && Ended(u, t)
    requires forall q :: q in u.net.log ==> q.context != u.call.reqCnt
    ensures !Executed(t)
  {
    forall i: nat ensures !LastAt(t, i) {
      if i < |t.net.log| { assert t.net.log[i] in u.net.log; }
    }
  }

  lemma LogOld(s: System)
    requires DeviceInv(s)
    ensures forall q :: q in s.net.log ==> q.context <= s.call.reqCnt
    ensures forall q :: q in s.net.requests ==> q.context <= s.call.reqCnt
  {
    hide Inv, Sound;
    InvKnown(s);
    SentBefore(s);
    OnLinkSent(s);
  }

  lemma OldOne(s: System) returns (q: Request)
    requires s.call.entry in s.regs && OldWrite(s)
    ensures q in s.net.requests && WritesTo(q, Entry(s).address)
  {
    q :| q in s.net.requests && q.write && q.address == Entry(s).address;
  }

  /** The attempt is issued over no loose end, and will be sent. */
  lemma AdvanceReaches(s: System)
    requires Inv(s) && s.call.requester.Snapped? && Hazard(s) && !Spoiled(s) && Enabled(s, ADVANCE)
    requires |Entry(s).words| <= |s.rx.buffer|
    ensures var u := Next(s, ADVANCE);
            && Awaits(u) && Sends(u) && FrameKind(u) == FrameKind(s)
            && (u.rx.pc.Copying? ==> u.rx.pc.response.status != 0)
            && (OldWrite(u) || FrameKind(u) != u.call.write || Mistaken(u)
                || (u.call.write && FrameAhead(u).words != Final(u)))
  {
    hide OneFrameEach, Honest, Buffered, AllOnes;
  }

  /** The words are changed before they are sent for another register. */
  lemma MistakenReturns(u: System) returns (acts: seq<Action>)
    requires Awaits(u) && Sends(u) && |Memory(u.net, Entry(u).address)| <= |u.rx.buffer|
    requires forall q :: q in u.net.log ==> q.context != u.call.reqCnt
    requires u.rx.pc.Copying? ==> u.rx.pc.response.status != 0
    requires Mistaken(u) && FrameKind(u) && FrameAhead(u).words == Final(u)
    ensures EndsAttempt(u, acts) && !Executed(Run(u, acts + [CHECK]))
  {
    hide Runs, Run, Memory, AllOnes, Executed;
    var words := FrameAhead(u).words;
    AllOnesSize(|Entry(u).words|);
    var a := Store(u.io.pc.reg, words[0 := if words[0] == 0 then 1 else 0]);
    var v := Next(u, a);
    var rest := FrameSent(v, None);
    NotExecuted(v, rest, None);
    acts := EndsLater(u, a, rest, Finished(FrameAhead(v), None), []);
  }

  lemma HazardReturns(s: System) returns (acts: seq<Action>)
    requires DeviceInv(s) && s.call.requester.Snapped? && Hazard(s) && Enabled(s, ADVANCE)
    requires |Entry(s).words| <= |s.rx.buffer| && |Memory(s.net, Entry(s).address)| <= |s.rx.buffer|
    ensures EndsAttempt(Next(s, ADVANCE), acts)
    ensures !Executed(Run(Next(s, ADVANCE), acts + [CHECK]))
  {
    hide Inv, Executed, LooseEnd, Runs, Run, Sound, Final, Mistaken, Scribbles;
    InvKnown(s);
    var u := Next(s, ADVANCE);
    LogOld(s);
    if Spoiled(s) {
      AdvanceLoose(s);
      acts := LooseReturns(u);
      NeverSent(u, Run(u, acts + [CHECK]));
    } else {
      AdvanceReaches(s);
      acts := UnsoundReturns(u);
    }
  }

  lemma UnsoundReturns(u: System) returns (acts: seq<Action>)
    requires Awaits(u) && Sends(u) && |Memory(u.net, Entry(u).address)| <= |u.rx.buffer|
    requires forall q :: q in u.net.log || q in u.net.requests ==> q.context != u.call.reqCnt
    requires u.rx.pc.Copying? ==> u.rx.pc.response.status != 0
    requires OldWrite(u) || FrameKind(u) != u.call.write || Mistaken(u)
             || (u.call.write && FrameAhead(u).words != Final(u))
    ensures EndsAttempt(u, acts) && !Executed(Run(u, acts + [CHECK]))
  {
    hide Runs, Run, Executed, Memory, Final, Mistaken, Scribbled, FrameAhead, Awaits, Sends;
    AwaitsKnown(u);
    if OldWrite(u) {
      var q := OldOne(u);
      acts := FrameSent(u, Some(q));
      NotExecuted(u, acts, Some(q));
    } else if FrameKind(u) != u.call.write || (u.call.write && FrameAhead(u).words != Final(u)) {
      acts := FrameSent(u, None);
      NotExecuted(u, acts, None);
    } else {
      MistakenWrites(u);
      acts := MistakenReturns(u);
    }
  }

  lemma MistakenWrites(u: System)
    requires Known(u) && Mistaken(u)
    ensures u.call.write
  {
  }

  /**
   * When the request counter advances: the attempt can end in a return without the device having done what
   * the call was for, if and only if there is a hazard.
   */
  lemma HazardExactly(s: System)
    requires DeviceInv(s) && s.call.requester.Snapped?
    requires |Entry(s).words| <= |s.rx.buffer| && |Memory(s.net, Entry(s).address)| <= |s.rx.buffer|
    ensures Enabled(s, ADVANCE)
    ensures (exists acts :: EndsAttempt(Next(s, ADVANCE), acts) && !Done(Run(Next(s, ADVANCE), acts + [CHECK])))
            <==> Hazard(s)
  {
    hide Inv, Done, Hazard, Runs, Run, Sound, LogSane, Next, Enabled;
    InvKnown(s);
    AdvanceClean(s);
    var u := Next(s, ADVANCE);
    HazardKept(s);
    if Hazard(s) {
      var acts := HazardReturns(s);
      NotDone(Run(u, acts + [CHECK]));
    } else {
      DeviceInvStep(s, ADVANCE);
      forall acts | EndsAttempt(u, acts) ensures Done(Run(u, acts + [CHECK])) {
        AttemptDone(u, acts);
      }
    }
  }

  lemma HazardKept(s: System)
    requires Enabled(s, ADVANCE) && Known(s)
    ensures Next(s, ADVANCE).call.hazard == Hazard(s)
  {
    HazardStep(s, ADVANCE);
  }

  lemma NotDone(t: System)
    requires !Executed(t)
    ensures !Done(t)
  {
  }

  lemma AttemptDone(u: System, acts: seq<Action>)
    requires DeviceInv(u) && Waits(u) && !u.call.hazard && EndsAttempt(u, acts)
    ensures Done(Run(u, acts + [CHECK]))
  {
    hide DeviceInv, Done, Waits, Inv, Next, Enabled, Run, Runs;
    SplitRun(u, acts, CHECK);
    RunKeepsDeviceInv(u, acts + [CHECK]);
    assert CHECK != ADVANCE && ADVANCE !in acts + [CHECK];
    DeviceReturn(u, acts);
  }

  /* ----- For how long ----- */

  /** No request that writes to the address is sent. */
  predicate Silent(s: System, acts: seq<Action>, a: Word)
    requires Runs(s, acts)
    decreases |acts|
  {
    acts == []
    || ((acts[0] == Sending(Transmit) ==> !WritesTo(FrameOf(s), a)) && Silent(Next(s, acts[0]), acts[1..], a))
  }

  /** A request on its way to the device would change what it holds. */
  predicate Undoes(n: Net, q: Request, a: Word) {
    q in n.requests && WritesTo(q, a) && q.words != Memory(n, a)
  }

  lemma StaysStep(s: System, act: Action, a: Word)
    requires Enabled(s, act) && (act == Sending(Transmit) ==> !WritesTo(FrameOf(s), a))
    requires forall q :: !Undoes(s.net, q, a)
    ensures Memory(Next(s, act).net, a) == Memory(s.net, a) && forall q :: !Undoes(Next(s, act).net, q, a)
  {
    hide Memory, Undoes, NextCall, NextIo, NextRx, NextNet, CallEnabled, IoEnabled, RxEnabled, NetEnabled, FrameOf;
    match act {
      case Requesting(c) => CallLeavesLink(s, c);
      case Sending(i) => SendKeepsMemory(s, i, a);
      case Linking(n) => LinkKeepsMemory(s.net, n, a);
      case Receiving(x) => RxKeepsMemory(s, x, a);
      case Store(_, _) =>
    }
    FewerUndo(s.net, Next(s, act).net, a);
  }

  lemma FewerUndo(n: Net, m: Net, a: Word)
    requires Memory(m, a) == Memory(n, a) && forall q :: !Undoes(n, q, a)
    requires forall q :: q in m.requests && WritesTo(q, a) ==> q in n.requests
    ensures forall q :: !Undoes(m, q, a)
  {
    hide Memory;
    forall q ensures !Undoes(m, q, a) {
      assert !Undoes(n, q, a);
    }
  }

  lemma SendKeepsMemory(s: System, i: IoStep, a: Word)
    requires IoEnabled(s, i)
    ensures var m := NextIo(s, i).net;
            && Memory(m, a) == Memory(s.net, a)
            && forall q :: q in m.requests ==> q in s.net.requests || (i == Transmit && q == FrameOf(s))
  {
    hide MemoryAfter;
  }

  lemma RxKeepsMemory(s: System, x: RxStep, a: Word)
    requires RxEnabled(s, x)
    ensures Memory(NextRx(s, x).net, a) == Memory(s.net, a) && NextRx(s, x).net.requests == s.net.requests
  {
    hide MemoryAfter, NextRx;
    RxLeavesRequests(s, x);
  }

  lemma LinkKeepsMemory(n: Net, step: NetStep, a: Word)
    requires NetEnabled(n, step) && forall q :: !Undoes(n, q, a)
    ensures Memory(NextNet(n, step), a) == Memory(n, a) && NextNet(n, step).requests <= n.requests
  {
    if step.Process? {
      assert (n.log + [step.request])[..|n.log|] == n.log && n.log + [] == n.log;
      assert !Undoes(n, step.request, a);
    }
  }

  lemma {:induction false} RunStays(s: System, acts: seq<Action>, a: Word)
    requires Runs(s, acts) && Silent(s, acts, a) && forall q :: !Undoes(s.net, q, a)
    ensures Memory(Run(s, acts).net, a) == Memory(s.net, a)
    decreases |acts|
  {
    hide Next, Enabled, Undoes, Memory;
    if acts != [] {
      StaysStep(s, acts[0], a);
      RunStays(Next(s, acts[0]), acts[1..], a);
    }
  }

  lemma Undone(s: System, q: Request, a: Word) returns (acts: seq<Action>)
    requires Undoes(s.net, q, a)
    ensures Runs(s, acts) && Silent(s, acts, a) && Memory(Run(s, acts).net, a) == q.words
  {
    var act := Linking(Process(q, Response(q.context, q.address, 1, []), true));
    acts := [act];
    assert acts[1..] == [];
    assert Run(s, acts) == Next(s, act);
  }

  /** Without a write to an address being sent, what is there can change exactly while an older one is on its way. */
  lemma StaysExactly(s: System, a: Word)
    ensures (exists acts :: Runs(s, acts) && Silent(s, acts, a) && Memory(Run(s, acts).net, a) != Memory(s.net, a))
            <==> exists q :: Undoes(s.net, q, a)
  {
    hide Runs, Run, Silent, Undoes, Memory;
    if q :| Undoes(s.net, q, a) {
      var acts := Undone(s, q, a);
      UndoesDiffers(s.net, q, a);
    } else {
      forall acts | Runs(s, acts) && Silent(s, acts, a) ensures Memory(Run(s, acts).net, a) == Memory(s.net, a) {
        RunStays(s, acts, a);
      }
    }
  }

  lemma UndoesDiffers(n: Net, q: Request, a: Word)
    requires Undoes(n, q, a)
    ensures q.words != Memory(n, a)
  {
  }

  /** The words of a write that returned stand in the device until the next write to the address is sent. */
  lemma WrittenStays(s: System, acts: seq<Action>, later: seq<Action>)
    requires Initial(s) && Returns(s, acts)
    requires var t := Run(s, acts + [CHECK]);
             && !t.call.hazard && t.call.write && t.call.entry in t.regs
             && Runs(t, later) && Silent(t, later, Entry(t).address)
    ensures var t := Run(s, acts + [CHECK]);
            Memory(Run(t, later).net, Entry(t).address) == Entry(t).words
  {
    hide Runs, Run, Silent, Executed, Memory;
    ReturnIsDone(s, acts);
    var t := Run(s, acts + [CHECK]);
    RunStays(t, later, Entry(t).address);
  }
}
