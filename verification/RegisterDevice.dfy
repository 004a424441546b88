/** When a register call that returns has been carried out by the device, and for how long that lasts. */
module RegisterDevice {
  import opened Options
  import opened Words
  import opened RegisterProtocol
  import opened RegisterRuns

  predicate OwnRequest(s: System, q: Request)
    requires s.call.entry in s.regs
  {
    q.context == s.call.reqCnt && q.address == Entry(s).address
  }

  predicate OwnAnswer(s: System, r: Response)
    requires s.call.entry in s.regs
  {
    r.context == s.call.reqCnt && r.address == Entry(s).address
  }

  /** The request of the latest attempt, as the call means it. */
  predicate Right(s: System, q: Request)
    requires s.call.entry in s.regs
  {
    OwnRequest(s, q) && q.write == s.call.write && (q.write ==> q.words == Entry(s).words)
  }

  predicate WritesTo(q: Request, a: Word) {
    q.write && q.address == a
  }

  ghost predicate LastAt(s: System, i: nat)
    requires s.call.entry in s.regs
  {
    && i < |s.net.log| && Right(s, s.net.log[i])
    && forall j :: i < j < |s.net.log| ==> !WritesTo(s.net.log[j], Entry(s).address)
  }

  /** The device has carried out the latest attempt, and no write to that address since. */
  ghost predicate Executed(s: System) {
    s.call.entry in s.regs && exists i: nat :: LastAt(s, i)
  }

  /** A response still to be looked at, or looked at since the counter advanced. */
  predicate Answering(s: System, r: Response) {
    r in s.net.responses || (s.rx.pc != Listening && s.rx.pc.response == r) || s.rx.heard == Some(r)
  }

  /** What has been carried out was sent, and is not on its way any more. */
  ghost predicate LogSane(n: Net, transmitted: seq<nat>) {
    forall q :: q in n.log ==> q.context in transmitted && forall p :: p in n.requests ==> p.context != q.context
  }

  /** The latest attempt will never be answered. */
  ghost predicate Dead(s: System)
    requires s.call.entry in s.regs
  {
    && (forall q :: q in s.net.requests ==> !OwnRequest(s, q))
    && (forall r :: Answering(s, r) ==> !OwnAnswer(s, r))
    && (|| s.call.reqCnt in s.io.transmitted
        || s.io.pc == Sent
        || s.io.lastReqCnt == s.call.reqCnt
        || (s.io.pc.Loaded? && s.io.pc.reg in s.regs && s.regs[s.io.pc.reg].address != Entry(s).address))
  }

  /** The frame of the latest attempt, wherever it is, is the right one, and nothing else writes to its address. */
  ghost predicate Live(s: System)
    requires s.call.entry in s.regs
  {
    && (forall q :: q in s.net.requests && WritesTo(q, Entry(s).address) ==> q.context == s.call.reqCnt)
    && (forall q :: q in s.net.requests && OwnRequest(s, q) ==> Right(s, q))
    && (forall r :: Answering(s, r) && OwnAnswer(s, r) && r.status == 0 ==>
          Executed(s) && (!s.call.write ==> r.words == Memory(s.net, Entry(s).address)))
    && Typing(s) && Quiescent(s)
  }

  /** An attempt not yet sent will go out in the direction of the call, and with the words of its register. */
  predicate Typing(s: System)
    requires s.call.entry in s.regs
  {
    s.call.reqCnt !in s.io.transmitted ==>
      && (s.io.pc.Typed? ==> s.io.pc.isWrite == s.call.write)
      && (s.io.pc.Loaded? && s.io.pc.reg in s.regs && s.regs[s.io.pc.reg].address == Entry(s).address ==>
            && s.io.pc.isWrite == s.call.write
            && (s.call.write ==> s.io.pc.reg == s.call.entry || s.regs[s.io.pc.reg].words == Entry(s).words == []))
  }

  /** The words of a register being written stay as they are. */
  predicate Quiescent(s: System)
    requires s.call.entry in s.regs
  {
    s.call.write && s.rx.pc.Copying? ==>
      Entry(s).words == AllOnes(|Entry(s).words|) && s.rx.pc.response.status != 0
  }

  /** An attempt issued without a hazard is being waited for. */
  predicate Watched(s: System) {
    (s.call.requester.Issued? || s.call.requester == Answered) && s.call.wait && !s.call.hazard
  }

  ghost predicate Sound(s: System)
    requires s.call.entry in s.regs
  {
    Watched(s) ==> Dead(s) || Live(s)
  }

  ghost predicate DeviceInv(s: System) {
    && Inv(s) && LogSane(s.net, s.io.transmitted) && Sound(s)
    && (!s.call.hazard ==> !s.call.spoiled)
  }

  lemma SameAddresses(s: System, a: Action)
    requires Enabled(s, a)
    ensures Next(s, a).regs.Keys == s.regs.Keys
    ensures forall i :: i in s.regs ==> Next(s, a).regs[i].address == s.regs[i].address
  {
    hide NextNet, NetEnabled, Spoiled, Hazard, AllOnes, FrameOf;
    assert s.call.entry in s.regs ==> s.regs.Keys + {s.call.entry} == s.regs.Keys;
    assert a.Store? ==> s.regs.Keys + {a.reg} == s.regs.Keys;
  }

  /** What is on the link was sent. */
  lemma OnLinkSent(s: System)
    requires OneFrameEach(s)
    ensures forall q :: q in s.net.requests ==> q.context in s.io.transmitted
    ensures forall r :: r in s.net.responses ==> r.context in s.io.transmitted
    ensures s.rx.pc != Listening ==> s.rx.pc.response.context in s.io.transmitted
  {
    hide Own;
    forall q | q in s.net.requests ensures q.context in s.io.transmitted {
      assert q in RequestsOf(s.net.requests, q.context);
      assert Under(s, q.context) >= 1;
    }
    forall r | r in s.net.responses ensures r.context in s.io.transmitted {
      SomeOnLink(s.net, r);
      assert Under(s, r.context) >= 1;
    }
    if s.rx.pc != Listening { assert Under(s, s.rx.pc.response.context) >= 1; }
  }

  /** No two requests of one context are on the link, and none whose response is under way. */
  lemma OneRequestEach(s: System, q: Request)
    requires OneFrameEach(s) && q in s.net.requests
    ensures forall p :: p in s.net.requests && p != q ==> p.context != q.context
    ensures forall r :: r in s.net.responses ==> r.context != q.context
    ensures s.rx.pc != Listening ==> s.rx.pc.response.context != q.context
  {
    hide Own;
    var qs, rs := RequestsOf(s.net.requests, q.context), ResponsesOf(s.net.responses, q.context);
    assert q in qs && Under(s, q.context) <= 1;
    assert {q} <= qs;
    assert |qs - {q}| == |qs| - 1;
    assert qs - {q} == {} && rs == {};
    forall p | p in s.net.requests && p != q ensures p.context != q.context {
      assert p !in qs - {q};
    }
    forall r | r in s.net.responses ensures r.context != q.context {
      assert r !in rs;
    }
  }

  lemma AllOnesSize(n: nat)
    ensures |AllOnes(n)| == n
  {
  }

  lemma LogSaneStep(s: System, a: Action)
    requires Enabled(s, a) && LogSane(s.net, s.io.transmitted)
    requires SentOnce(s.io, s.call.reqCnt) && OneFrameEach(s)
    ensures LogSane(Next(s, a).net, Next(s, a).io.transmitted)
  {
    hide SentOnce, OneFrameEach, NextCall, NextRx;
    SentOnceStep(s, a);
    match a
    case Linking(n) =>
      if n.Process? { OneRequestEach(s, n.request); }
      OnLinkSent(s);
    case Requesting(c) => CallLeavesLink(s, c);
    case Receiving(x) => RxLeavesRequests(s, x);
    case _ =>
  }

  lemma RxLeavesRequests(s: System, a: RxStep)
    requires RxEnabled(s, a)
    ensures var t := NextRx(s, a);
            && t.net.requests == s.net.requests && t.net.log == s.net.log && t.net.origin == s.net.origin
            && t.net.responses <= s.net.responses && t.io == s.io && t.call == s.call
            && t.regs.Keys == s.regs.Keys
            && forall i :: i in s.regs ==>
                 t.regs[i].address == s.regs[i].address && |t.regs[i].words| == |s.regs[i].words|
  {
    hide AllOnes;
    assert s.regs.Keys + {s.call.entry} == s.regs.Keys;
    assert |AllOnes(|Entry(s).words|)| == |Entry(s).words| by { AllOnesSize(|Entry(s).words|); }
  }

  /* ----- The latest attempt, step by step ----- */

  lemma SoundAdvance(s: System)
    requires Enabled(s, ADVANCE) && Inv(s)
    ensures Next(s, ADVANCE).call.entry in Next(s, ADVANCE).regs && Sound(Next(s, ADVANCE))
  {
    hide OneFrameEach, Honest, Buffered, Attempts, LooseEnd, Dead, Live;
    OnLinkSent(s);
    SentBefore(s);
    if !Hazard(s) && s.call.wait {
      if Reaches(s) { LiveAtFirst(s); } else { DeadAtFirst(s); }
    }
  }

  lemma SentBefore(s: System)
    requires Inv(s)
    ensures forall c :: c in s.io.transmitted ==> c <= s.call.reqCnt
  {
    hide OneFrameEach, Honest, Buffered, Attempts;
  }

  /** Whatever is under way was sent before the latest attempt. */
  ghost predicate AllOld(s: System) {
    && (forall q :: q in s.net.requests ==> q.context <= s.call.reqCnt)
    && (forall r :: r in s.net.responses ==> r.context <= s.call.reqCnt)
    && (s.rx.pc != Listening ==> s.rx.pc.response.context <= s.call.reqCnt)
    && (forall c :: c in s.io.transmitted ==> c <= s.call.reqCnt)
  }

  lemma DeadAtFirst(s: System)
    requires Enabled(s, ADVANCE) && Known(s) && AllOld(s) && !Reaches(s)
    ensures Dead(Next(s, ADVANCE))
  {
    hide Spoiled, Hazard;
  }

  lemma LiveAtFirst(s: System)
    requires Enabled(s, ADVANCE) && Known(s) && AllOld(s) && Reaches(s) && !Hazard(s) && s.call.wait
    ensures Live(Next(s, ADVANCE))
  {
    hide Spoiled, Executed;
  }

  lemma SoundCall(s: System, a: CallStep)
    requires CallEnabled(s, a) && a != Advance && Sound(s)
    ensures NextCall(s, a).call.entry in NextCall(s, a).regs && Sound(NextCall(s, a))
  {
    hide Dead, Live;
    CallLeavesLink(s, a);
    var t := NextCall(s, a);
    if Watched(t) {
      if Dead(s) { DeadAlike(s, t); } else { LiveAlike(s, t); }
    }
  }

  /** The two states are the same as far as the latest attempt goes. */
  ghost predicate Alike(s: System, t: System)
    requires s.call.entry in s.regs && t.call.entry in t.regs
  {
    && t.call.entry == s.call.entry && t.call.reqCnt == s.call.reqCnt && t.call.write == s.call.write
    && Entry(t).address == Entry(s).address && (s.call.write ==> Entry(t).words == Entry(s).words)
    && t.net == s.net && t.io == s.io && t.rx == s.rx && t.regs.Keys == s.regs.Keys
    && forall i :: i in s.regs ==> t.regs[i].address == s.regs[i].address && |t.regs[i].words| == |s.regs[i].words|
  }

  lemma DeadAlike(s: System, t: System)
    requires s.call.entry in s.regs && t.call.entry in t.regs && Alike(s, t) && Dead(s)
    ensures Dead(t)
  {
    assert forall r :: Answering(t, r) ==> Answering(s, r);
  }

  lemma LiveAlike(s: System, t: System)
    requires s.call.entry in s.regs && t.call.entry in t.regs && Alike(s, t) && Live(s)
    ensures Live(t)
  {
    if Executed(s) { ExecutedAlike(s, t); }
  }

  lemma ExecutedAlike(s: System, t: System)
    requires Executed(s) && t.call.entry in t.regs && t.call.entry == s.call.entry
    requires t.call.reqCnt == s.call.reqCnt && t.call.write == s.call.write
    requires Entry(t).address == Entry(s).address && (s.call.write ==> Entry(t).words == Entry(s).words)
    requires t.net.log == s.net.log
    ensures Executed(t)
  {
    var i: nat :| LastAt(s, i);
    assert LastAt(t, i);
  }

  lemma SoundIo(s: System, a: IoStep)
    requires IoEnabled(s, a) && Inv(s) && Sound(s)
    ensures NextIo(s, a).call == s.call && Sound(NextIo(s, a))
  {
    hide Inv, Dead, Live;
    IoStepUnder(s, a, 0);
    IoSends(s, a);
    if Watched(s) {
      if Dead(s) { DeadIo(s, a); } else { LiveIo(s, a); }
    }
  }

  lemma IoSends(s: System, a: IoStep)
    requires IoEnabled(s, a) && Inv(s)
    ensures SentOnce(s.io, s.call.reqCnt)
    ensures a == Transmit ==> s.call.reqCnt !in s.io.transmitted
  {
    hide OneFrameEach, Honest, Buffered, Attempts, NextIo, NextCall, NextRx, NextNet;
    SentOnceStep(s, Sending(a));
  }

  lemma DeadIo(s: System, a: IoStep)
    requires IoEnabled(s, a) && SentOnce(s.io, s.call.reqCnt) && Dead(s)
    requires a == Transmit ==> s.call.reqCnt !in s.io.transmitted
    ensures Dead(NextIo(s, a))
  {
    assert forall r :: Answering(NextIo(s, a), r) ==> Answering(s, r);
  }

  lemma LiveIo(s: System, a: IoStep)
    requires IoEnabled(s, a) && Live(s)
    requires a == Transmit ==> s.call.reqCnt !in s.io.transmitted
    ensures Live(NextIo(s, a))
  {
    hide Executed;
    var t := NextIo(s, a);
    assert forall r :: Answering(t, r) ==> Answering(s, r);
    if Executed(s) { ExecutedAlike(s, t); }
  }

  lemma SoundNet(s: System, a: NetStep)
    requires NetEnabled(s.net, a) && Known(s) && LogSane(s.net, s.io.transmitted) && Sound(s)
    ensures Sound(s.(net := NextNet(s.net, a)))
  {
    hide Dead, Live, LogSane, NetEnabled, NextNet;
    if Watched(s) {
      if Dead(s) { DeadNet(s, a); } else { LiveNet(s, a); }
    }
  }

  lemma DeadNet(s: System, a: NetStep)
    requires NetEnabled(s.net, a) && Known(s) && Dead(s)
    ensures Dead(s.(net := NextNet(s.net, a)))
  {
    var t := s.(net := NextNet(s.net, a));
    assert forall r :: Answering(t, r) ==> Answering(s, r) || (a.Process? && r == a.answer);
  }

  lemma LiveNet(s: System, a: NetStep)
    requires NetEnabled(s.net, a) && Known(s) && LogSane(s.net, s.io.transmitted) && Live(s)
    ensures Live(s.(net := NextNet(s.net, a)))
  {
    hide Executed;
    var t := s.(net := NextNet(s.net, a));
    assert forall r :: Answering(t, r) ==> Answering(s, r) || (a.Process? && r == a.answer);
    match a
    case Process(q, r, executed) => LiveProcess(s, q, r, executed);
    case _ => if Executed(s) { ExecutedAlike(s, t); }
  }

  lemma LiveProcess(s: System, q: Request, r: Response, executed: bool)
    requires NetEnabled(s.net, Process(q, r, executed)) && Known(s) && LogSane(s.net, s.io.transmitted) && Live(s)
    ensures Live(s.(net := NextNet(s.net, Process(q, r, executed))))
  {
    hide Executed, LogSane;
    var t := s.(net := NextNet(s.net, Process(q, r, executed)));
    if Executed(s) { ExecutedStays(s, q, executed, t); }
    if executed && OwnRequest(s, q) { JustExecuted(s, q, t); }
    assert forall x :: Answering(t, x) ==> Answering(s, x) || x == r;
  }

  /** The device writes nothing else to the address once it has carried out the latest attempt. */
  lemma ExecutedStays(s: System, q: Request, executed: bool, t: System)
    requires Known(s) && LogSane(s.net, s.io.transmitted) && q in s.net.requests && Executed(s)
    requires WritesTo(q, Entry(s).address) ==> q.context == s.call.reqCnt
    requires t.call == s.call && t.regs == s.regs && t.net.origin == s.net.origin
    requires t.net.log == s.net.log + if executed then [q] else []
    ensures Executed(t) && Memory(t.net, Entry(s).address) == Memory(s.net, Entry(s).address)
  {
    var i: nat :| LastAt(s, i);
    assert s.net.log[i] in s.net.log;
    assert LastAt(t, i);
    assert !WritesTo(q, Entry(s).address) || !executed;
    assert s.net.log + [] == s.net.log && (s.net.log + [q])[..|s.net.log|] == s.net.log;
  }

  lemma JustExecuted(s: System, q: Request, t: System)
    requires Known(s) && Right(s, q) && t.call == s.call && t.regs == s.regs && t.net.origin == s.net.origin
    requires t.net.log == s.net.log + [q]
    ensures Executed(t)
    ensures !q.write ==> Memory(t.net, Entry(s).address) == Memory(s.net, Entry(s).address)
  {
    assert LastAt(t, |s.net.log|);
    assert t.net.log[..|t.net.log| - 1] == s.net.log;
  }

  lemma SoundRx(s: System, a: RxStep)
    requires RxEnabled(s, a) && Known(s) && Sound(s)
    ensures NextRx(s, a).call == s.call && s.call.entry in NextRx(s, a).regs && Sound(NextRx(s, a))
  {
    hide Dead, Live, NextRx, RxEnabled;
    RxLeavesRequests(s, a);
    if Watched(s) {
      if Dead(s) { DeadRx(s, a); } else { LiveRx(s, a); }
    }
  }

  lemma DeadRx(s: System, a: RxStep)
    requires RxEnabled(s, a) && Dead(s)
    ensures s.call.entry in NextRx(s, a).regs && Dead(NextRx(s, a))
  {
    hide AllOnes;
    RxLeavesRequests(s, a);
    RxAnswers(s, a);
  }

  lemma RxAnswers(s: System, a: RxStep)
    requires RxEnabled(s, a)
    ensures forall r :: Answering(NextRx(s, a), r) ==> Answering(s, r)
  {
    hide AllOnes;
  }

  lemma LiveRx(s: System, a: RxStep)
    requires RxEnabled(s, a) && Live(s)
    ensures s.call.entry in NextRx(s, a).regs && Live(NextRx(s, a))
  {
    hide Executed, NextRx;
    RxLeavesRequests(s, a);
    RxAnswers(s, a);
    RxKeepsWords(s, a);
    if Executed(s) { ExecutedAlike(s, NextRx(s, a)); }
    MemoryAlike(s.net, NextRx(s, a).net, Entry(s).address);
  }

  lemma MemoryAlike(n: Net, m: Net, a: Word)
    requires m.origin == n.origin && m.log == n.log
    ensures Memory(m, a) == Memory(n, a)
  {
  }

  lemma RxKeepsWords(s: System, a: RxStep)
    requires RxEnabled(s, a) && Quiescent(s)
    ensures s.call.entry in NextRx(s, a).regs && Quiescent(NextRx(s, a)) && NextRx(s, a).call == s.call
    ensures s.call.write ==> Entry(NextRx(s, a)).words == Entry(s).words
  {
  }

  lemma SoundStore(s: System, reg: nat, words: seq<Word>)
    requires Enabled(s, Store(reg, words)) && Known(s) && Sound(s)
    ensures s.call.entry in Next(s, Store(reg, words)).regs && Sound(Next(s, Store(reg, words)))
  {
    hide Dead, Live;
    var t := Next(s, Store(reg, words));
    if Watched(s) {
      if Dead(s) { DeadAlike(s, t); } else { LiveAlike(s, t); }
    }
  }

  lemma SoundStep(s: System, a: Action)
    requires Enabled(s, a) && DeviceInv(s)
    ensures Next(s, a).call.entry in Next(s, a).regs && Sound(Next(s, a))
  {
    hide Inv, LogSane, Sound, NextCall, NextIo, NextRx, NextNet, CallEnabled, IoEnabled, RxEnabled, NetEnabled;
    InvKnown(s);
    match a
    case Requesting(c) => if c == Advance { SoundAdvance(s); } else { SoundCall(s, c); }
    case Sending(i) =>
      IoStepUnder(s, i, 0);
      SoundIo(s, i);
    case Linking(n) => SoundNet(s, n);
    case Receiving(x) => SoundRx(s, x);
    case Store(reg, words) => SoundStore(s, reg, words);
  }

  lemma InvKnown(s: System)
    requires Inv(s)
    ensures Known(s) && SentOnce(s.io, s.call.reqCnt) && OneFrameEach(s)
  {
    hide SentOnce, OneFrameEach, Attempts, Buffered, Honest;
  }

  lemma {:induction false} MemoryOf(origin: map<Word, seq<Word>>, log: seq<Request>, a: Word, i: nat)
    requires i < |log| && WritesTo(log[i], a) && forall j :: i < j < |log| ==> !WritesTo(log[j], a)
    ensures MemoryAfter(origin, log, a) == log[i].words
    decreases |log|
  {
    if i < |log| - 1 { MemoryOf(origin, log[..|log| - 1], a, i); }
  }

  lemma DeviceInvStep(s: System, a: Action)
    requires Enabled(s, a) && DeviceInv(s)
    ensures DeviceInv(Next(s, a))
  {
    hide Inv, LogSane, Sound, Next, Enabled;
    InvKnown(s);
    InvStep(s, a);
    LogSaneStep(s, a);
    SoundStep(s, a);
    HazardStep(s, a);
  }

  lemma HazardStep(s: System, a: Action)
    requires Enabled(s, a) && Known(s)
    ensures if a == ADVANCE then
              Next(s, a).call.hazard == Hazard(s) && Next(s, a).call.spoiled == Spoiled(s) && (Spoiled(s) ==> Hazard(s))
            else Next(s, a).call.hazard == s.call.hazard && Next(s, a).call.spoiled == s.call.spoiled
  {
    hide NextNet, NetEnabled, NextIo, IoEnabled, AllOnes, FrameOf, LooseEnd;
    if a.Sending? { IoStepUnder(s, a.i, 0); }
  }

  lemma {:induction false} RunKeepsDeviceInv(s: System, acts: seq<Action>)
    requires DeviceInv(s) && Runs(s, acts)
    ensures DeviceInv(Run(s, acts))
    ensures ADVANCE !in acts ==> Run(s, acts).call.hazard == s.call.hazard
    decreases |acts|
  {
    hide Inv, LogSane, Sound, Next, Enabled;
    if acts != [] {
      InvKnown(s);
      DeviceInvStep(s, acts[0]);
      HazardStep(s, acts[0]);
      RunKeepsDeviceInv(Next(s, acts[0]), acts[1..]);
    }
  }

  lemma InitialDeviceInv(s: System)
    requires Initial(s)
    ensures DeviceInv(s)
  {
    hide Inv;
    InitialInv(s);
  }

  /* ----- What a call that returns can rely on ----- */

  /** The device has done what the call was for, and nothing on its way will undo it. */
  ghost predicate Done(t: System) {
    && Executed(t)
    && (t.call.write ==> Memory(t.net, Entry(t).address) == Entry(t).words)
    && (!t.call.write ==> Held(Entry(t).words, Memory(t.net, Entry(t).address)))
    && forall q :: q in t.net.requests ==> !WritesTo(q, Entry(t).address)
  }

  lemma CheckDone(s: System)
    requires DeviceInv(s) && Enabled(s, CHECK) && s.call.wait && !s.call.hazard
    requires Next(s, CHECK).call.requester == Idle && Next(s, CHECK).call.outcome == Returned
    ensures Done(Next(s, CHECK))
  {
    hide Inv, Executed, Live, Dead;
    InvKnown(s);
    CheckAnswers(s);
    var t := Next(s, CHECK);
    AnswerLives(s, t.rx.heard.value);
    LiveAlike(s, t);
    LiveDone(t);
  }

  lemma AnswerLives(s: System, r: Response)
    requires Known(s) && Sound(s) && Watched(s) && Answering(s, r) && OwnAnswer(s, r)
    ensures Live(s)
  {
  }

  lemma LiveDone(t: System)
    requires Answers(t) && Live(t) && LogSane(t.net, t.io.transmitted)
    ensures Done(t)
  {
    var r, a := t.rx.heard.value, Entry(t).address;
    assert Answering(t, r) && OwnAnswer(t, r);
    var i: nat :| LastAt(t, i);
    assert t.net.log[i] in t.net.log;
    if t.call.write { MemoryOf(t.net.origin, t.net.log, a, i); }
  }

  /**
   * A waited call that returns has been carried out by the device unless its last attempt was issued at a
   * hazard: the register's words stand in the device after a write, and are those of the device after a read.
   */
  lemma ReturnIsDone(s: System, acts: seq<Action>)
    requires Initial(s) && Returns(s, acts) && !Run(s, acts + [CHECK]).call.hazard
    ensures Done(Run(s, acts + [CHECK]))
  {
    hide Inv, DeviceInv, Done;
    InitialDeviceInv(s);
    DeviceReturn(s, acts);
  }

  lemma DeviceReturn(s: System, acts: seq<Action>)
    requires DeviceInv(s) && Waits(s) && Returns(s, acts) && !Run(s, acts + [CHECK]).call.hazard
    ensures Done(Run(s, acts + [CHECK]))
  {
    hide Inv, Done, Waits, LogSane, Sound;
    SplitRun(s, acts, CHECK);
    RunKeepsDeviceInv(s, acts);
    RunWaits(s, acts);
    CheckSpoils(Run(s, acts));
    InvKnown(Run(s, acts));
    HazardStep(Run(s, acts), CHECK);
    CheckDone(Run(s, acts));
  }
}
