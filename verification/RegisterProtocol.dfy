/**
 * Register transactions over a link that may lose or delay frames: the requester inside
 * `queueRegister`, the IO thread, the link with the device behind it, and the receive thread.
 * Every step is one access to what the threads share; counters are unbounded here.
 */
module RegisterProtocol {
  import opened Options
  import opened Words

  const MAX_RETRIES := 5

  datatype Register = Register(address: Word, words: seq<Word>, status: Word)

  datatype Request = Request(context: nat, address: Word, write: bool, words: seq<Word>)
  datatype Response = Response(context: nat, address: Word, status: Word, words: seq<Word>)

  /** Where the holder of the request mutex stands. */
  datatype Requester =
    | Idle
    | Entered(isWrite: bool)    // the register is set, its direction not yet
    | Ready                     // about to start an attempt
    | Snapped(currResp: nat)    // response counter noted, request counter not yet advanced
    | Issued(currResp: nat)     // waiting
    | Answered                  // left the waiting loop without a timeout

  datatype Outcome = Running | Returned | Threw

  datatype Call = Call(
    entry: nat,                 // regReqEntry_
    write: bool,                // regReqWrite_
    wait: bool,
    tryCount: nat,
    reqCnt: nat,                // regReqCnt_
    requester: Requester,
    outcome: Outcome,           // of the latest call
    base: nat,                  // history: reqCnt when the latest call began
    spoiled: bool,              // history: whether the latest attempt was issued over a loose end
    hazard: bool                // history: whether it may return without being the last word at its address
  )

  /** Where the IO thread stands. */
  datatype Sender =
    | Resting
    | Typed(isWrite: bool)              // has seen a new request and its direction
    | Loaded(isWrite: bool, reg: nat)   // and its register
    | Sent                              // has transmitted and not yet noted the counter

  datatype Io = Io(pc: Sender, lastReqCnt: nat, transmitted: seq<nat>)   // history: contexts sent

  /**
   * Requests on the way to the device, and responses on the way back; what the device held at first at
   * each address, and the requests it has carried out since.
   */
  datatype Net = Net(
    requests: set<Request>, responses: set<Response>, origin: map<Word, seq<Word>>, log: seq<Request>)

  /** What the device holds at an address. */
  function Memory(n: Net, a: Word): seq<Word> {
    MemoryAfter(n.origin, n.log, a)
  }

  function MemoryAfter(origin: map<Word, seq<Word>>, log: seq<Request>, a: Word): seq<Word> {
    if log == [] then (if a in origin then origin[a] else [])
    else
      var last := log[|log| - 1];
      if last.write && last.address == a then last.words else MemoryAfter(origin, log[..|log| - 1], a)
  }

  /** Where the receive thread stands with the response in its hand. */
  datatype Receiver =
    | Listening
    | Current(response: Response)       // the context is that of the request counter
    | Matched(response: Response)       // and the address that of the register
    | Copying(response: Response)       // a read
    | Copied(response: Response)
    | Stated(response: Response)        // the status is set, the response not yet counted

  datatype Rx = Rx(
    pc: Receiver,
    buffer: seq<Word>,          // rxRegister_
    respCnt: nat,               // regRespCnt_
    heard: Option<Response>     // history: whose status was set since the counter advanced
  )

  datatype System = System(regs: map<nat, Register>, maxRxTx: nat, call: Call, io: Io, net: Net, rx: Rx)

  predicate Initial(s: System) {
    && s.call.entry in s.regs && s.call.reqCnt == s.rx.respCnt == s.io.lastReqCnt == 0
    && s.call.requester == Idle && s.io.pc == Resting && s.rx.pc == Listening
    && s.net.requests == {} && s.net.responses == {} && s.net.log == []
    && s.io.transmitted == [] && s.rx.heard == None
    && !s.call.spoiled && !s.call.hazard && s.call.tryCount == 0 && s.call.base == 0
  }

  datatype CallStep =
    | Begin(reg: nat, isWrite: bool, isWait: bool)
    | SetWrite
    | Snapshot
    | Advance
    | Unwaited
    | See
    | Check
    | Timeout

  datatype IoStep = Select | Load | Transmit | Note

  datatype NetStep =
    | Process(request: Request, answer: Response, executed: bool)
    | LoseRequest(request: Request)
    | LoseResponse(answer: Response)

  datatype RxStep = Receive(response: Response) | CompareAddress | TestWrite | Copy | SetStatus | Count

  datatype Action =
    | Requesting(c: CallStep)
    | Sending(i: IoStep)
    | Linking(n: NetStep)
    | Receiving(x: RxStep)
    | Store(reg: nat, words: seq<Word>)

  /* ----- The requester ----- */

  /** The register of the call. */
  function Entry(s: System): Register
    requires s.call.entry in s.regs
  {
    s.regs[s.call.entry]
  }

  /** Pointers lead to registers. */
  predicate Known(s: System) {
    s.call.entry in s.regs && (s.io.pc.Loaded? ==> s.io.pc.reg in s.regs)
  }

  predicate CallEnabled(s: System, a: CallStep) {
    Known(s) &&
    match a
    case Begin(reg, _, _) => s.call.requester == Idle && reg in s.regs
    case SetWrite => s.call.requester.Entered?
    case Snapshot => s.call.requester == Ready
    case Advance => s.call.requester.Snapped?
    case Unwaited => s.call.requester.Issued? && !s.call.wait
    case See => s.call.requester.Issued? && s.call.wait && s.call.requester.currResp != s.rx.respCnt
    case Check => s.call.requester == Answered
    case Timeout => s.call.requester.Issued? && s.call.wait
  }

  /** An attempt has failed: another one, or the end of the call. */
  function Retry(c: Call): Call {
    if c.tryCount <= MAX_RETRIES then c.(requester := Ready) else c.(requester := Idle, outcome := Threw)
  }

  function NextCall(s: System, a: CallStep): System
    requires CallEnabled(s, a)
  {
    var c := s.call;
    match a
    case Begin(reg, w, wt) =>
      if |s.regs[reg].words| + 3 > s.maxRxTx then s.(call := c.(outcome := Threw))
      else
        s.(call := c.(entry := reg, wait := wt, tryCount := 0, requester := Entered(w), outcome := Running,
                      base := c.reqCnt))
    case SetWrite => s.(call := c.(write := c.requester.isWrite, requester := Ready))
    case Snapshot => s.(call := c.(requester := Snapped(s.rx.respCnt)))
    case Advance =>
      s.(call := c.(reqCnt := c.reqCnt + 1, tryCount := c.tryCount + 1, requester := Issued(c.requester.currResp),
                    spoiled := Spoiled(s), hazard := Hazard(s)),
         rx := s.rx.(heard := None))
    case Unwaited => s.(call := c.(requester := Idle, outcome := Returned))
    case See => s.(call := c.(requester := Answered))
    case Check =>
      if Entry(s).status != 0 then s.(call := Retry(c)) else s.(call := c.(requester := Idle, outcome := Returned))
    case Timeout => s.(call := Retry(c))
  }

  /** A response in hand that is going to set the status of the register, if it has not done so yet. */
  predicate Ahead(s: System)
    requires s.call.entry in s.regs
  {
    (s.rx.pc.Current? && s.rx.pc.response.address == Entry(s).address)
    || s.rx.pc.Matched? || s.rx.pc.Copying? || s.rx.pc.Copied?
  }

  /** Something left over would let the waiting loop end with status 0, if the counter `noted` is waited on. */
  predicate LooseEnd(s: System, noted: nat)
    requires s.call.entry in s.regs
  {
    || (s.rx.respCnt != noted && Entry(s).status == 0)
    || (s.rx.pc.Stated? && Entry(s).status == 0)
    || (Ahead(s) && s.rx.pc.response.status == 0)
  }

  /** The attempt about to be issued will be waited for, over a loose end. */
  predicate Spoiled(s: System)
    requires s.call.entry in s.regs && s.call.requester.Snapped?
  {
    s.call.wait && LooseEnd(s, s.call.requester.currResp)
  }

  /** The frame of the attempt about to be issued can be one for its address. */
  predicate Reaches(s: System)
    requires Known(s)
  {
    s.io.pc == Resting || s.io.pc.Typed? || (s.io.pc.Loaded? && s.regs[s.io.pc.reg].address == Entry(s).address)
  }

  /** Its direction, which the IO thread may have looked at before the call. */
  function FrameKind(s: System): bool {
    if s.io.pc.Typed? || s.io.pc.Loaded? then s.io.pc.isWrite else s.call.write
  }

  /** A write to the same address is still on its way to the device. */
  predicate OldWrite(s: System)
    requires s.call.entry in s.regs
  {
    exists q :: q in s.net.requests && q.write && q.address == Entry(s).address
  }

  /** The receive thread is about to write over the words of a register that is being written. */
  predicate Scribbles(s: System)
    requires s.call.entry in s.regs
  {
    s.call.write && s.rx.pc.Copying? && Entry(s).words != AllOnes(|Entry(s).words|)
  }

  /** The IO thread is about to send the words of another register than the one that is being written. */
  predicate Mistaken(s: System)
    requires Known(s)
  {
    && s.call.write && s.io.pc.Loaded? && s.io.pc.reg != s.call.entry
    && (s.regs[s.io.pc.reg].words != [] || Entry(s).words != [])
  }

  /** The attempt about to be issued can return without being the last word of the device at its address. */
  predicate Hazard(s: System)
    requires Known(s) && s.call.requester.Snapped?
  {
    s.call.wait &&
    (LooseEnd(s, s.call.requester.currResp)
     || (Reaches(s) && (FrameKind(s) != s.call.write || OldWrite(s) || Scribbles(s) || Mistaken(s))))
  }

  /* ----- The IO thread ----- */

  predicate IoEnabled(s: System, a: IoStep) {
    s.call.entry in s.regs &&
    match a
    case Select => s.io.pc == Resting && s.io.lastReqCnt != s.call.reqCnt
    case Load => s.io.pc.Typed?
    case Transmit => s.io.pc.Loaded? && Known(s)
    case Note => s.io.pc == Sent
  }

  function FrameOf(s: System): Request
    requires IoEnabled(s, Transmit)
  {
    var reg := s.regs[s.io.pc.reg];
    Request(s.call.reqCnt, reg.address, s.io.pc.isWrite, if s.io.pc.isWrite then reg.words else [])
  }

  function NextIo(s: System, a: IoStep): System
    requires IoEnabled(s, a)
  {
    match a
    case Select => s.(io := s.io.(pc := Typed(s.call.write)))
    case Load => s.(io := s.io.(pc := Loaded(s.io.pc.isWrite, s.call.entry)))
    case Transmit =>
      s.(io := s.io.(pc := Sent, transmitted := s.io.transmitted + [s.call.reqCnt]),
         net := s.net.(requests := s.net.requests + {FrameOf(s)}))
    case Note => s.(io := s.io.(pc := Resting, lastReqCnt := s.call.reqCnt))
  }

  /* ----- The link ----- */

  predicate NetEnabled(n: Net, a: NetStep) {
    match a
    case Process(q, r, executed) =>
      && q in n.requests && r.context == q.context && r.address == q.address
      && (r.status == 0 ==> executed)
      && (r.status == 0 && !q.write ==> r.words == Memory(n, q.address))
    case LoseRequest(q) => q in n.requests
    case LoseResponse(r) => r in n.responses
  }

  function NextNet(n: Net, a: NetStep): Net
    requires NetEnabled(n, a)
  {
    match a
    case Process(q, r, executed) =>
      n.(requests := n.requests - {q}, responses := n.responses + {r}, log := n.log + if executed then [q] else [])
    case LoseRequest(q) => n.(requests := n.requests - {q})
    case LoseResponse(r) => n.(responses := n.responses - {r})
  }

  /* ----- The receive thread ----- */

  predicate RxEnabled(s: System, a: RxStep) {
    s.call.entry in s.regs &&
    match a
    case Receive(r) => s.rx.pc == Listening && r in s.net.responses
    case CompareAddress => s.rx.pc.Current?
    case TestWrite => s.rx.pc.Matched?
    case Copy => s.rx.pc.Copying? && |Entry(s).words| <= |s.rx.buffer|
    case SetStatus => s.rx.pc.Copied?
    case Count => s.rx.pc.Stated?
  }

  function AllOnes(n: nat): seq<Word> {
    seq(n, _ => TWO_32 - 1)
  }

  /** A frame that does not fit the receive register is refused, a shorter one leaves the rest of it as it was. */
  function NextRx(s: System, a: RxStep): System
    requires RxEnabled(s, a)
  {
    match a
    case Receive(r) =>
      var net := s.net.(responses := s.net.responses - {r});
      if |r.words| > |s.rx.buffer| then s.(net := net)
      else
        s.(net := net,
           rx := s.rx.(buffer := r.words + s.rx.buffer[|r.words|..],
                       pc := if r.context == s.call.reqCnt then Current(r) else Listening))
    case CompareAddress =>
      var r := s.rx.pc.response;
      s.(rx := s.rx.(pc := if r.address == Entry(s).address then Matched(r) else Listening))
    case TestWrite =>
      var r := s.rx.pc.response;
      s.(rx := s.rx.(pc := if s.call.write then Copied(r) else Copying(r)))
    case Copy =>
      var r, reg := s.rx.pc.response, Entry(s);
      var words := if r.status == 0 then s.rx.buffer[..|reg.words|] else AllOnes(|reg.words|);
      s.(regs := s.regs[s.call.entry := reg.(words := words)], rx := s.rx.(pc := Copied(r)))
    case SetStatus =>
      var r := s.rx.pc.response;
      s.(regs := s.regs[s.call.entry := Entry(s).(status := r.status)],
         rx := s.rx.(pc := Stated(r), heard := Some(r)))
    case Count => s.(rx := s.rx.(pc := Listening, respCnt := s.rx.respCnt + 1))
  }

  /* ----- All together ----- */

  predicate Enabled(s: System, a: Action) {
    match a
    case Requesting(c) => CallEnabled(s, c)
    case Sending(i) => IoEnabled(s, i)
    case Linking(n) => NetEnabled(s.net, n)
    case Receiving(x) => RxEnabled(s, x)
    case Store(reg, ws) =>
      reg in s.regs && |ws| == |s.regs[reg].words| && (s.call.requester == Idle || reg != s.call.entry)
  }

  function Next(s: System, a: Action): System
    requires Enabled(s, a)
  {
    match a
    case Requesting(c) => NextCall(s, c)
    case Sending(i) => NextIo(s, i)
    case Linking(n) => s.(net := NextNet(s.net, n))
    case Receiving(x) => NextRx(s, x)
    case Store(reg, ws) => s.(regs := s.regs[reg := s.regs[reg].(words := ws)])
  }

  /* ----- Invariants ----- */

  /** Contexts are sent once each, in increasing order, and none before it is issued. */
  ghost predicate SentOnce(io: Io, reqCnt: nat) {
    && io.lastReqCnt <= reqCnt
    && (io.pc.Typed? || io.pc.Loaded? ==> io.lastReqCnt < reqCnt)
    && (forall i, j :: 0 <= i < j < |io.transmitted| ==> io.transmitted[i] < io.transmitted[j])
    && (forall c :: c in io.transmitted ==> c <= if io.pc == Sent then reqCnt else io.lastReqCnt)
  }

  function RequestsOf(qs: set<Request>, c: nat): set<Request> {
    set q | q in qs && q.context == c
  }

  function ResponsesOf(rs: set<Response>, c: nat): set<Response> {
    set r | r in rs && r.context == c
  }

  /** The frames of one context still on the way, in either direction. */
  function OnLink(n: Net, c: nat): (k: nat) {
    |RequestsOf(n.requests, c)| + |ResponsesOf(n.responses, c)|
  }

  function InHand(pc: Receiver, c: nat): (k: nat) {
    if pc != Listening && pc.response.context == c then 1 else 0
  }

  function Under(s: System, c: nat): (k: nat) {
    OnLink(s.net, c) + InHand(s.rx.pc, c)
  }

  /** The status of the register was set by the response to the latest attempt. */
  predicate Own(s: System) {
    s.rx.heard.Some? && s.rx.heard.value.context == s.call.reqCnt
  }

  /** At most one frame per context is under way, none before it is sent, none on the link once it is answered. */
  ghost predicate OneFrameEach(s: System) {
    && (forall c :: Under(s, c) <= if c in s.io.transmitted then 1 else 0)
    && (Own(s) ==> OnLink(s.net, s.call.reqCnt) == 0 && s.call.reqCnt in s.io.transmitted)
  }

  predicate Attempts(c: Call, respCnt: nat) {
    && c.tryCount <= MAX_RETRIES + 1 && c.reqCnt == c.base + c.tryCount
    && (c.requester.Entered? ==> c.tryCount == 0)
    && (c.requester.Issued? || c.requester == Answered ==> c.tryCount >= 1)
    && (c.requester == Ready || c.requester.Snapped? ==> c.tryCount <= MAX_RETRIES)
    && (c.requester.Snapped? || c.requester.Issued? ==> c.requester.currResp <= respCnt)
  }

  /** The receive register begins with the words of the response in hand. */
  predicate Buffered(rx: Rx) {
    rx.pc != Listening ==> rx.pc.response.words <= rx.buffer
  }

  /** A register's words are those of a response, as far as both go. */
  predicate Held(words: seq<Word>, got: seq<Word>) {
    words <= got || got <= words
  }

  /** The register holds what the response to the latest attempt said. */
  predicate Genuine(s: System) {
    && s.call.entry in s.regs && Own(s)
    && var r, reg := s.rx.heard.value, Entry(s);
    && r.address == reg.address && r.status == reg.status
    && (!s.call.write && r.status == 0 ==> Held(reg.words, r.words))
  }

  /** The response to the latest attempt, while it is in hand. */
  predicate OwnHandFits(s: System)
    requires s.call.entry in s.regs
  {
    s.rx.pc != Listening && s.rx.pc.response.context == s.call.reqCnt ==>
      var r := s.rx.pc.response;
      && (!s.rx.pc.Current? ==> r.address == Entry(s).address)
      && (s.rx.pc.Copied? && !s.call.write && r.status == 0 ==> Held(Entry(s).words, r.words))
      && (s.rx.pc.Stated? ==> s.rx.heard == Some(r))
  }

  /** Until it is answered, the waiting loop cannot end, or ends on a status that is not 0. */
  predicate Harmless(s: System)
    requires s.call.entry in s.regs
  {
    && (s.call.requester.Issued? && s.rx.respCnt != s.call.requester.currResp ==> Entry(s).status != 0)
    && (s.call.requester == Answered ==> Entry(s).status != 0)
    && (s.rx.pc != Listening && s.rx.pc.response.context != s.call.reqCnt ==>
          && (Ahead(s) ==> s.rx.pc.response.status != 0)
          && (s.rx.pc.Stated? ==> Entry(s).status != 0))
  }

  predicate Honest(s: System)
    requires s.call.entry in s.regs
  {
    (s.call.requester.Issued? || s.call.requester == Answered) && s.call.wait && !s.call.spoiled ==>
      && OwnHandFits(s)
      && if Own(s) then Genuine(s) && s.rx.pc in {Listening, Stated(s.rx.heard.value)} else Harmless(s)
  }

  ghost predicate Inv(s: System) {
    && Known(s) && SentOnce(s.io, s.call.reqCnt) && OneFrameEach(s)
    && Attempts(s.call, s.rx.respCnt) && Buffered(s.rx) && Honest(s)
  }

  lemma KnownStep(s: System, a: Action)
    requires Enabled(s, a) && Known(s)
    ensures Known(Next(s, a))
  {
    hide NextNet, NetEnabled, Spoiled, Hazard, AllOnes, FrameOf;
  }

  lemma CallLeavesLink(s: System, a: CallStep)
    requires CallEnabled(s, a)
    ensures NextCall(s, a).net == s.net && NextCall(s, a).io == s.io && NextCall(s, a).regs == s.regs
    ensures NextCall(s, a).rx.pc == s.rx.pc && s.call.reqCnt <= NextCall(s, a).call.reqCnt
    ensures a != Advance ==> NextCall(s, a).rx == s.rx && NextCall(s, a).call.reqCnt == s.call.reqCnt
  {
    hide Spoiled, Hazard;
  }

  lemma SentOnceStep(s: System, a: Action)
    requires Enabled(s, a) && SentOnce(s.io, s.call.reqCnt)
    ensures SentOnce(Next(s, a).io, Next(s, a).call.reqCnt)
    ensures Next(s, a).io.transmitted == s.io.transmitted + if a == Sending(Transmit) then [s.call.reqCnt] else []
    ensures a == Sending(Transmit) ==> s.call.reqCnt !in s.io.transmitted
  {
    hide NextRx, RxEnabled, NextNet, NetEnabled, NextCall, CallEnabled, NextIo, IoEnabled;
    assert s.io.transmitted + [] == s.io.transmitted;
    match a
    case Requesting(c) => CallLeavesLink(s, c);
    case Sending(i) => SentOnceIo(s, i);
    case Receiving(x) => RxLeavesIo(s, x);
    case _ =>
  }

  lemma SentOnceIo(s: System, a: IoStep)
    requires IoEnabled(s, a) && SentOnce(s.io, s.call.reqCnt)
    ensures NextIo(s, a).call == s.call && SentOnce(NextIo(s, a).io, s.call.reqCnt)
    ensures NextIo(s, a).io.transmitted == s.io.transmitted + if a == Transmit then [s.call.reqCnt] else []
    ensures a == Transmit ==> s.call.reqCnt !in s.io.transmitted
  {
    hide FrameOf;
    if a == Transmit {
      forall i | 0 <= i < |s.io.transmitted| ensures s.io.transmitted[i] < s.call.reqCnt {
        assert s.io.transmitted[i] in s.io.transmitted;
      }
    }
  }

  lemma RxLeavesIo(s: System, a: RxStep)
    requires RxEnabled(s, a)
    ensures NextRx(s, a).io == s.io && NextRx(s, a).call == s.call
  {
  }

  lemma RequestCount(qs: set<Request>, q: Request, c: nat)
    ensures q in qs ==> |RequestsOf(qs - {q}, c)| == |RequestsOf(qs, c)| - if q.context == c then 1 else 0
    ensures |RequestsOf(qs + {q}, c)| <= |RequestsOf(qs, c)| + if q.context == c then 1 else 0
  {
    var here := if q.context == c then {q} else {};
    assert RequestsOf(qs + {q}, c) == RequestsOf(qs, c) + here;
    assert RequestsOf(qs - {q}, c) == RequestsOf(qs, c) - here;
  }

  lemma ResponseCount(rs: set<Response>, r: Response, c: nat)
    ensures r in rs ==> |ResponsesOf(rs - {r}, c)| == |ResponsesOf(rs, c)| - if r.context == c then 1 else 0
    ensures |ResponsesOf(rs + {r}, c)| <= |ResponsesOf(rs, c)| + if r.context == c then 1 else 0
  {
    var here := if r.context == c then {r} else {};
    assert ResponsesOf(rs + {r}, c) == ResponsesOf(rs, c) + here;
    assert ResponsesOf(rs - {r}, c) == ResponsesOf(rs, c) - here;
  }

  lemma NetStepUnder(n: Net, a: NetStep, c: nat)
    requires NetEnabled(n, a)
    ensures OnLink(NextNet(n, a), c) <= OnLink(n, c)
  {
    hide RequestsOf, ResponsesOf;
    match a
    case Process(q, r, _) =>
      RequestCount(n.requests, q, c);
      ResponseCount(n.responses, r, c);
    case LoseRequest(q) => RequestCount(n.requests, q, c);
    case LoseResponse(r) => ResponseCount(n.responses, r, c);
  }

  lemma RxStepUnder(s: System, a: RxStep, c: nat)
    requires RxEnabled(s, a)
    ensures OnLink(NextRx(s, a).net, c) <= OnLink(s.net, c)
    ensures Under(NextRx(s, a), c) <= Under(s, c)
    ensures a.Receive? && a.response.context == c ==> OnLink(s.net, c) > 0
  {
    hide RequestsOf, ResponsesOf, AllOnes;
    match a
    case Receive(r) => ResponseCount(s.net.responses, r, c);
    case _ => assert NextRx(s, a).net == s.net;
  }

  /** Only a transmission adds to a context, and only to the one it sends. */
  lemma UnderStep(s: System, a: Action, c: nat)
    requires Enabled(s, a)
    ensures Under(Next(s, a), c) <= Under(s, c) + if a == Sending(Transmit) && c == s.call.reqCnt then 1 else 0
    ensures OnLink(Next(s, a).net, c)
            <= OnLink(s.net, c) + if a == Sending(Transmit) && c == s.call.reqCnt then 1 else 0
  {
    hide OnLink, NextRx, RxEnabled, NextNet, NetEnabled, Spoiled, Hazard, FrameOf;
    match a
    case Requesting(_) => assert Next(s, a).net == s.net && Next(s, a).rx.pc == s.rx.pc;
    case Sending(i) => IoStepUnder(s, i, c);
    case Linking(n) => NetStepUnder(s.net, n, c);
    case Receiving(x) => RxStepUnder(s, x, c);
    case Store(_, _) =>
  }

  lemma IoStepUnder(s: System, a: IoStep, c: nat)
    requires IoEnabled(s, a)
    ensures OnLink(NextIo(s, a).net, c) <= OnLink(s.net, c) + if a == Transmit && c == s.call.reqCnt then 1 else 0
    ensures NextIo(s, a).rx == s.rx && NextIo(s, a).call == s.call && NextIo(s, a).regs == s.regs
  {
    hide RequestsOf, ResponsesOf;
    if a == Transmit { RequestCount(s.net.requests, FrameOf(s), c); }
  }

  /** What a step does to the answer and the counter it belongs to. */
  lemma AnswerStep(s: System, a: Action)
    requires Enabled(s, a)
    ensures s.call.reqCnt <= Next(s, a).call.reqCnt
    ensures Own(Next(s, a)) ==>
              && Next(s, a).call.reqCnt == s.call.reqCnt
              && (Own(s) || (a == Receiving(SetStatus) && InHand(s.rx.pc, s.call.reqCnt) == 1))
  {
    hide NextNet, NetEnabled, NextCall, CallEnabled, NextIo, IoEnabled, NextRx, RxEnabled;
    match a
    case Requesting(c) => AnswerCall(s, c);
    case Sending(i) => IoStepUnder(s, i, 0);
    case Receiving(x) => AnswerRx(s, x);
    case _ =>
  }

  lemma AnswerCall(s: System, a: CallStep)
    requires CallEnabled(s, a)
    ensures s.call.reqCnt <= NextCall(s, a).call.reqCnt
    ensures Own(NextCall(s, a)) ==> NextCall(s, a).call.reqCnt == s.call.reqCnt && Own(s)
  {
    hide NextCall;
    CallLeavesLink(s, a);
    if a == Advance { AdvanceForgets(s); }
  }

  lemma AdvanceForgets(s: System)
    requires CallEnabled(s, Advance)
    ensures NextCall(s, Advance).rx.heard == None
  {
    hide Spoiled, Hazard;
  }

  lemma AnswerRx(s: System, a: RxStep)
    requires RxEnabled(s, a)
    ensures NextRx(s, a).call == s.call
    ensures Own(NextRx(s, a)) ==> Own(s) || (a == SetStatus && InHand(s.rx.pc, s.call.reqCnt) == 1)
  {
    hide AllOnes;
  }

  lemma OneFrameStep(s: System, a: Action)
    requires Enabled(s, a) && SentOnce(s.io, s.call.reqCnt) && OneFrameEach(s)
    ensures OneFrameEach(Next(s, a))
  {
    hide Under, OnLink, Next, Enabled, SentOnce, Own;
    var t := Next(s, a);
    SentOnceStep(s, a);
    forall c: nat ensures Under(t, c) <= if c in t.io.transmitted then 1 else 0 {
      UnderStep(s, a, c);
    }
    if Own(t) {
      AnswerStep(s, a);
      UnderStep(s, a, s.call.reqCnt);
      if !Own(s) { HandAlone(s); }
    }
  }

  /** The only frame of its context is the one in hand. */
  lemma HandAlone(s: System)
    requires OneFrameEach(s) && InHand(s.rx.pc, s.call.reqCnt) == 1
    ensures OnLink(s.net, s.call.reqCnt) == 0 && s.call.reqCnt in s.io.transmitted
  {
    hide OnLink, Own;
    assert Under(s, s.call.reqCnt) <= 1;
  }

  /** A frame that is received was sent. */
  lemma ReceivedWasSent(s: System)
    requires SentOnce(s.io, s.call.reqCnt) && OneFrameEach(s) && s.rx.pc != Listening
    ensures s.rx.pc.response.context <= s.call.reqCnt
  {
    hide OnLink, Own;
    var c := s.rx.pc.response.context;
    assert Under(s, c) >= 1;
  }

  lemma AttemptsStep(s: System, a: Action)
    requires Enabled(s, a) && Attempts(s.call, s.rx.respCnt)
    ensures Attempts(Next(s, a).call, Next(s, a).rx.respCnt)
  {
    hide NextIo, NextCall, NextRx, NextNet;
    match a
    case Requesting(c) => AttemptsCall(s, c);
    case Sending(i) => IoStepUnder(s, i, 0);
    case Receiving(x) => AttemptsRx(s, x);
    case _ =>
  }

  lemma AttemptsCall(s: System, a: CallStep)
    requires CallEnabled(s, a) && Attempts(s.call, s.rx.respCnt)
    ensures Attempts(NextCall(s, a).call, NextCall(s, a).rx.respCnt)
  {
    hide NextCall, Attempts;
    if a == Check || a == Timeout { AttemptsRetry(s, a); } else { AttemptsOther(s, a); }
  }

  lemma AttemptsRetry(s: System, a: CallStep)
    requires CallEnabled(s, a) && (a == Check || a == Timeout) && Attempts(s.call, s.rx.respCnt)
    ensures Attempts(NextCall(s, a).call, NextCall(s, a).rx.respCnt)
  {
    hide Spoiled, Hazard;
  }

  lemma AttemptsOther(s: System, a: CallStep)
    requires CallEnabled(s, a) && a != Check && a != Timeout && Attempts(s.call, s.rx.respCnt)
    ensures Attempts(NextCall(s, a).call, NextCall(s, a).rx.respCnt)
  {
    hide Spoiled, Hazard, Retry;
  }

  lemma AttemptsRx(s: System, a: RxStep)
    requires RxEnabled(s, a) && Attempts(s.call, s.rx.respCnt)
    ensures Attempts(NextRx(s, a).call, NextRx(s, a).rx.respCnt)
  {
    hide AllOnes;
  }

  lemma BufferedStep(s: System, a: Action)
    requires Enabled(s, a) && Buffered(s.rx)
    ensures Buffered(Next(s, a).rx)
  {
    hide NextNet, NetEnabled, Spoiled, Hazard, AllOnes, FrameOf;
  }

  /* ----- The waiting loop ----- */

  lemma HonestCall(s: System, a: CallStep)
    requires CallEnabled(s, a) && Known(s) && Honest(s) && Attempts(s.call, s.rx.respCnt)
    requires s.rx.pc != Listening ==> s.rx.pc.response.context <= s.call.reqCnt
    ensures Known(NextCall(s, a)) && Honest(NextCall(s, a))
  {
    hide Held;
    if a == Advance { HonestAdvance(s); }
  }

  /** An attempt that is not issued over a loose end starts out harmless. */
  lemma HonestAdvance(s: System)
    requires CallEnabled(s, Advance) && Known(s)
    requires s.rx.pc != Listening ==> s.rx.pc.response.context <= s.call.reqCnt
    ensures Honest(NextCall(s, Advance))
  {
  }

  lemma HonestRx(s: System, a: RxStep)
    requires RxEnabled(s, a) && Known(s) && Honest(s) && Buffered(s.rx)
    requires a.Receive? && Own(s) ==> a.response.context != s.call.reqCnt
    requires s.call.requester.Issued? ==> s.call.requester.currResp <= s.rx.respCnt
    ensures Known(NextRx(s, a)) && Honest(NextRx(s, a))
  {
    match a
    case Copy => CopiedWords(s);
    case _ =>
  }

  lemma CopiedWords(s: System)
    requires RxEnabled(s, Copy) && Buffered(s.rx)
    ensures s.rx.pc.response.status == 0 ==> Held(Entry(NextRx(s, Copy)).words, s.rx.pc.response.words)
  {
  }

  /** The link, the IO thread and unrelated registers leave the waiting loop alone. */
  lemma HonestAlike(s: System, t: System)
    requires Known(s) && Honest(s) && t.call == s.call && t.rx == s.rx
    requires s.call.entry in t.regs && (t.regs[s.call.entry] == s.regs[s.call.entry] || s.call.requester == Idle)
    ensures Honest(t)
  {
  }

  lemma HonestStep(s: System, a: Action)
    requires Enabled(s, a) && Inv(s)
    ensures Next(s, a).call.entry in Next(s, a).regs && Honest(Next(s, a))
  {
    hide Honest, SentOnce, OnLink, Buffered, Attempts, NextIo, NextCall, NextRx, NextNet, OneFrameEach;
    match a
    case Requesting(c) =>
      if s.rx.pc != Listening { ReceivedWasSent(s); }
      HonestCall(s, c);
    case Receiving(x) =>
      if x.Receive? { NothingMore(s, x.response); }
      CountedFrom(s);
      HonestRx(s, x);
    case Sending(i) =>
      IoStepUnder(s, i, 0);
      HonestAlike(s, Next(s, a));
    case _ => HonestAlike(s, Next(s, a));
  }

  lemma NothingMore(s: System, r: Response)
    requires OneFrameEach(s) && r in s.net.responses
    ensures Own(s) ==> r.context != s.call.reqCnt
  {
    hide Under;
    SomeOnLink(s.net, r);
  }

  lemma SomeOnLink(n: Net, r: Response)
    requires r in n.responses
    ensures OnLink(n, r.context) > 0
  {
    assert r in ResponsesOf(n.responses, r.context);
  }

  lemma CountedFrom(s: System)
    requires Attempts(s.call, s.rx.respCnt)
    ensures s.call.requester.Issued? ==> s.call.requester.currResp <= s.rx.respCnt
  {
  }

  lemma InvStep(s: System, a: Action)
    requires Enabled(s, a) && Inv(s)
    ensures Inv(Next(s, a))
  {
    hide Known, SentOnce, OneFrameEach, Attempts, Buffered, Honest, Enabled, Next;
    KnownStep(s, a);
    KnownEntry(s, a);
    SentOnceStep(s, a);
    OneFrameStep(s, a);
    AttemptsStep(s, a);
    BufferedStep(s, a);
    HonestStep(s, a);
  }

  lemma KnownEntry(s: System, a: Action)
    requires Enabled(s, a) && Known(s)
    ensures Next(s, a).call.entry in Next(s, a).regs
  {
    KnownStep(s, a);
  }
}
