/** What a register call that returns can rely on, over every run and at every attempt, and two runs that go wrong. */
module RegisterRuns {
  import opened Options
  import opened Words
  import opened RegisterProtocol

  /* ----- Runs ----- */

  predicate Runs(s: System, acts: seq<Action>)
    decreases |acts|
  {
    acts == [] || (Enabled(s, acts[0]) && Runs(Next(s, acts[0]), acts[1..]))
  }

  function Run(s: System, acts: seq<Action>): System
    requires Runs(s, acts)
    decreases |acts|
  {
    if acts == [] then s else Run(Next(s, acts[0]), acts[1..])
  }

  lemma {:induction false} RunKeepsInv(s: System, acts: seq<Action>)
    requires Inv(s) && Runs(s, acts)
    ensures Inv(Run(s, acts))
    decreases |acts|
  {
    hide Inv, Next, Enabled;
    if acts != [] {
      InvStep(s, acts[0]);
      RunKeepsInv(Next(s, acts[0]), acts[1..]);
    }
  }

  lemma InitialInv(s: System)
    requires Initial(s)
    ensures Inv(s)
  {
    forall c: nat ensures Under(s, c) == 0 {
      assert RequestsOf(s.net.requests, c) == {} && ResponsesOf(s.net.responses, c) == {};
    }
  }

  lemma {:induction false} SplitRun(s: System, acts: seq<Action>, a: Action)
    ensures Runs(s, acts + [a]) <==> Runs(s, acts) && Enabled(Run(s, acts), a)
    ensures Runs(s, acts + [a]) ==> Run(s, acts + [a]) == Next(Run(s, acts), a)
    decreases |acts|
  {
    hide Next, Enabled;
    if acts == [] {
      assert acts + [a] == [a] && [a][1..] == [];
    } else {
      assert (acts + [a])[1..] == acts[1..] + [a];
      if Enabled(s, acts[0]) { SplitRun(Next(s, acts[0]), acts[1..], a); }
    }
  }

  const CHECK := Requesting(Check)
  const ADVANCE := Requesting(Advance)

  /** The run ends with the return of a call that has waited. */
  predicate Returns(s: System, acts: seq<Action>) {
    && Runs(s, acts + [CHECK])
    && Run(s, acts + [CHECK]).call.outcome == Returned && Run(s, acts + [CHECK]).call.requester == Idle
  }

  /** What a call that returns can rely on. */
  predicate Answers(t: System) {
    && t.call.entry in t.regs && t.rx.heard.Some?
    && var r, reg := t.rx.heard.value, Entry(t);
    && r.context == t.call.reqCnt && r.context in t.io.transmitted
    && r.address == reg.address && r.status == 0
    && (!t.call.write ==> Held(reg.words, r.words))
    && t.call.base < r.context <= t.call.base + MAX_RETRIES + 1
  }

  lemma CheckAnswers(s: System)
    requires Inv(s) && Enabled(s, CHECK) && Next(s, CHECK).call.requester == Idle && !s.call.spoiled
    requires Next(s, CHECK).call.outcome == Returned && s.call.wait
    ensures Answers(Next(s, CHECK))
  {
    hide Held, OnLink, SentOnce;
  }

  /** Only waited calls reach the check of the status. */
  predicate Waits(s: System) {
    s.call.requester == Answered ==> s.call.wait
  }

  lemma {:induction false} RunWaits(s: System, acts: seq<Action>)
    requires Runs(s, acts) && Waits(s)
    ensures Waits(Run(s, acts))
    decreases |acts|
  {
    hide Waits, Next, Enabled;
    if acts != [] {
      WaitsStep(s, acts[0]);
      RunWaits(Next(s, acts[0]), acts[1..]);
    }
  }

  lemma WaitsStep(s: System, a: Action)
    requires Enabled(s, a) && Waits(s)
    ensures Waits(Next(s, a))
  {
    hide NextNet, NetEnabled, Spoiled, Hazard, AllOnes, FrameOf;
  }

  /** From any state of a run: if the latest attempt was not issued over a loose end, a return is an answer to it. */
  lemma ReturnAnswers(s: System, acts: seq<Action>)
    requires Inv(s) && Waits(s) && Returns(s, acts) && !Run(s, acts + [CHECK]).call.spoiled
    ensures Answers(Run(s, acts + [CHECK]))
  {
    hide Inv, Answers, Waits;
    SplitRun(s, acts, CHECK);
    RunKeepsInv(s, acts);
    RunWaits(s, acts);
    CheckSpoils(Run(s, acts));
    CheckAnswers(Run(s, acts));
  }

  lemma CheckSpoils(s: System)
    requires Enabled(s, CHECK)
    ensures Next(s, CHECK).call.spoiled == s.call.spoiled && (Waits(s) ==> s.call.wait)
  {
  }

  /**
   * A waited call that returns has been answered with the context of its own last attempt, which was
   * sent, unless that attempt was issued over a loose end.
   */
  lemma ReturnIsGenuine(s: System, acts: seq<Action>)
    requires Initial(s) && Returns(s, acts) && !Run(s, acts + [CHECK]).call.spoiled
    ensures var t := Run(s, acts + [CHECK]);
            && t.call.entry in t.regs && t.rx.heard.Some?
            && var r, reg := t.rx.heard.value, Entry(t);
            && r.context == t.call.reqCnt && r.context in t.io.transmitted
            && r.address == reg.address && r.status == 0
            && (!t.call.write ==> Held(reg.words, r.words))
            && t.call.base < r.context <= t.call.base + MAX_RETRIES + 1
  {
    hide Inv, Returns;
    InitialInv(s);
    ReturnAnswers(s, acts);
  }

  /** In every run each context is sent at most once, and a call uses at most six of them. */
  lemma ContextsSentOnce(s: System, acts: seq<Action>)
    requires Initial(s) && Runs(s, acts)
    ensures var t := Run(s, acts);
            && (forall i, j :: 0 <= i < j < |t.io.transmitted| ==> t.io.transmitted[i] < t.io.transmitted[j])
            && (forall c :: c in t.io.transmitted ==> c <= t.call.reqCnt)
            && t.call.reqCnt <= t.call.base + MAX_RETRIES + 1
  {
    hide Initial;
    InitialInv(s);
    RunKeepsInv(s, acts);
  }

  /* ----- How often ----- */

  /** An attempt that fails is the last one exactly when it is the sixth; only then the call throws. */
  lemma GivenUpExactly(s: System, a: CallStep)
    requires Inv(s) && CallEnabled(s, a) && (a == Timeout || (a == Check && Entry(s).status != 0))
    ensures var c := NextCall(s, a).call;
            if s.call.reqCnt == s.call.base + 6 then c.requester == Idle && c.outcome == Threw
            else s.call.reqCnt < s.call.base + 6 && c.requester == Ready && c.outcome == s.call.outcome
    ensures NextCall(s, a).call.reqCnt == s.call.reqCnt && NextCall(s, a).call.base == s.call.base
  {
    hide OneFrameEach, Honest, Buffered, SentOnce, Spoiled, Hazard;
  }

  function Advances(acts: seq<Action>): nat
    decreases |acts|
  {
    if acts == [] then 0 else Advances(acts[1..]) + if acts[0] == ADVANCE then 1 else 0
  }

  predicate IsBegin(a: Action) {
    a.Requesting? && a.c.Begin?
  }

  /** The call has thrown only after six attempts, and returned only after one. */
  predicate Tried(c: Call) {
    && (c.outcome == Threw ==> c.requester == Idle && c.reqCnt == c.base + 6)
    && (c.outcome == Returned ==> c.requester == Idle && c.reqCnt > c.base)
    && (c.requester == Idle ==> c.outcome != Running)
  }

  lemma TriedStep(s: System, a: Action)
    requires Inv(s) && Enabled(s, a) && !IsBegin(a) && Tried(s.call)
    ensures Tried(Next(s, a).call) && Next(s, a).call.base == s.call.base
    ensures Next(s, a).call.reqCnt == s.call.reqCnt + if a == ADVANCE then 1 else 0
  {
    hide Inv, NextCall, NextNet, NextIo, NextRx, CallEnabled, NetEnabled, IoEnabled, RxEnabled, Tried;
    match a
    case Requesting(c) => TriedCall(s, c);
    case Sending(i) => IoStepUnder(s, i, 0);
    case Receiving(x) => RxLeavesIo(s, x);
    case _ =>
  }

  lemma TriedCall(s: System, a: CallStep)
    requires Inv(s) && CallEnabled(s, a) && !a.Begin? && Tried(s.call)
    ensures Tried(NextCall(s, a).call) && NextCall(s, a).call.base == s.call.base
    ensures NextCall(s, a).call.reqCnt == s.call.reqCnt + if a == Advance then 1 else 0
  {
    hide OneFrameEach, Honest, Buffered, SentOnce, Spoiled, Hazard;
  }

  /**
   * From the beginning of a call on, until the next one: each attempt advances the counter once, there are
   * at most six, and the call throws exactly after the sixth.
   */
  lemma {:induction false} ThrowsAfterSix(u: System, acts: seq<Action>)
    requires Inv(u) && Tried(u.call) && Runs(u, acts) && forall a :: a in acts ==> !IsBegin(a)
    ensures var t := Run(u, acts);
            && t.call.base == u.call.base && t.call.reqCnt == u.call.reqCnt + Advances(acts)
            && t.call.reqCnt <= t.call.base + 6
            && (t.call.outcome == Threw ==> t.call.requester == Idle && t.call.reqCnt == t.call.base + 6)
            && (t.call.outcome == Returned ==> t.call.requester == Idle && t.call.reqCnt > t.call.base)
    decreases |acts|
  {
    hide OneFrameEach, Honest, Buffered, SentOnce, Next, Enabled;
    if acts != [] {
      InvStep(u, acts[0]);
      TriedStep(u, acts[0]);
      ThrowsAfterSix(Next(u, acts[0]), acts[1..]);
    }
  }

  /** A call begins with none of its attempts made; one that is too long for the link throws at once. */
  lemma BeginsUntried(s: System, reg: nat, w: bool, wait: bool)
    requires Inv(s) && CallEnabled(s, Begin(reg, w, wait))
    ensures var t := NextCall(s, Begin(reg, w, wait));
            && t.call.reqCnt == s.call.reqCnt
            && if |s.regs[reg].words| + 3 > s.maxRxTx then t.call == s.call.(outcome := Threw)
               else Tried(t.call) && t.call.base == s.call.reqCnt && t.call.outcome == Running
                    && t.call.entry == reg && t.call.wait == wait && t.call.requester == Entered(w)
  {
    hide OneFrameEach, Honest, Buffered, SentOnce, Spoiled, Hazard;
  }

  /* ----- Exactly when ----- */

  /** A run from a waiting call to the end of the same attempt. */
  predicate EndsAttempt(u: System, acts: seq<Action>) {
    ADVANCE !in acts && Returns(u, acts)
  }

  lemma {:induction false} SameAttempt(u: System, acts: seq<Action>)
    requires Runs(u, acts) && ADVANCE !in acts
    ensures Run(u, acts).call.spoiled == u.call.spoiled
    decreases |acts|
  {
    hide Next, Enabled;
    if acts != [] {
      SpoiledStays(u, acts[0]);
      SameAttempt(Next(u, acts[0]), acts[1..]);
    }
  }

  lemma SpoiledStays(s: System, a: Action)
    requires Enabled(s, a) && a != ADVANCE
    ensures Next(s, a).call.spoiled == s.call.spoiled
  {
    hide NextNet, NetEnabled, Spoiled, Hazard, AllOnes, FrameOf;
  }

  /** The waiting loop of `u` has something left over to end on. */
  predicate Loose(u: System) {
    && Known(u) && u.call.requester.Issued? && u.call.wait
    && u.call.requester.currResp <= u.rx.respCnt && |Entry(u).words| <= |u.rx.buffer|
    && LooseEnd(u, u.call.requester.currResp)
  }

  /** How far the response in hand still has to go. */
  function Left(pc: Receiver): nat {
    match pc
    case Listening => 0
    case Current(_) => 5
    case Matched(_) => 4
    case Copying(_) => 3
    case Copied(_) => 2
    case Stated(_) => 1
  }

  /** The next step of the receive thread with what it has in hand. */
  function HandStep(pc: Receiver): RxStep
    requires pc != Listening
  {
    match pc
    case Current(_) => CompareAddress
    case Matched(_) => TestWrite
    case Copying(_) => Copy
    case Copied(_) => SetStatus
    case Stated(_) => Count
  }

  lemma LooseStep(u: System)
    requires Loose(u) && (u.rx.respCnt == u.call.requester.currResp || Entry(u).status != 0)
    ensures u.rx.pc != Listening && RxEnabled(u, HandStep(u.rx.pc))
    ensures var v := NextRx(u, HandStep(u.rx.pc));
            && Loose(v) && Left(v.rx.pc) < Left(u.rx.pc) && v.call == u.call && v.io == u.io && v.net == u.net
            && Entry(v).address == Entry(u).address && (Firm(u) ==> Firm(v) && Entry(v).words == Entry(u).words)
  {
    hide AllOnes;
  }

  /** The receive thread is not going to change the words of the register. */
  predicate Firm(u: System) {
    u.call.write && !u.rx.pc.Copying?
  }

  /** `t` is `u` at the end of the attempt, with nothing sent, carried out or lost since. */
  ghost predicate Ended(u: System, t: System)
    requires u.call.entry in u.regs
  {
    && t.call == u.call.(requester := Idle, outcome := Returned) && t.io == u.io && t.net == u.net
    && t.call.entry in t.regs && Entry(t).address == Entry(u).address
    && (Firm(u) ==> Entry(t).words == Entry(u).words)
  }

  lemma SeeAndCheck(u: System)
    requires Loose(u) && u.rx.respCnt != u.call.requester.currResp && Entry(u).status == 0
    ensures Returns(u, [Requesting(See)])
    ensures Ended(u, Run(u, [Requesting(See)] + [CHECK]))
  {
    var v := NextCall(u, See);
    assert Entry(v) == Entry(u);
    RunOne(v, CHECK, []);
    RunOne(u, Requesting(See), [CHECK]);
    assert [CHECK] + [] == [CHECK];
  }

  lemma RunOne(s: System, a: Action, rest: seq<Action>)
    requires Enabled(s, a) && Runs(Next(s, a), rest)
    ensures Runs(s, [a] + rest) && Run(s, [a] + rest) == Run(Next(s, a), rest)
  {
    hide Enabled, Next;
    assert ([a] + rest)[1..] == rest;
  }

  /** The loop then ends without anything having been sent. */
  lemma {:induction false} LooseReturns(u: System) returns (acts: seq<Action>)
    requires Loose(u)
    ensures EndsAttempt(u, acts)
    ensures Ended(u, Run(u, acts + [CHECK]))
    decreases Left(u.rx.pc)
  {
    hide LooseEnd, Runs, Run, Next, Enabled;
    if LoopEnds(u) {
      acts := [Requesting(See)];
      SeeAndCheck(u);
    } else {
      StillLoose(u);
      var a := HandStep(u.rx.pc);
      var more := LooseReturns(NextRx(u, a));
      acts := [Receiving(a)] + more;
      assert acts + [CHECK] == [Receiving(a)] + (more + [CHECK]);
      RunOne(u, Receiving(a), more + [CHECK]);
    }
  }

  predicate LoopEnds(u: System) {
    && Loose(u) && u.rx.respCnt != u.call.requester.currResp && Entry(u).status == 0
  }

  lemma StillLoose(u: System)
    requires Loose(u) && !LoopEnds(u)
    ensures u.rx.pc != Listening && RxEnabled(u, HandStep(u.rx.pc)) && Enabled(u, Receiving(HandStep(u.rx.pc)))
    ensures var v := NextRx(u, HandStep(u.rx.pc));
            && Loose(v) && Left(v.rx.pc) < Left(u.rx.pc) && v.call == u.call && v.io == u.io && v.net == u.net
            && Entry(v).address == Entry(u).address && (Firm(u) ==> Firm(v) && Entry(v).words == Entry(u).words)
            && Next(u, Receiving(HandStep(u.rx.pc))) == v
  {
    LooseStep(u);
  }

  lemma AdvanceLoose(s: System)
    requires Inv(s) && s.call.requester.Snapped? && Spoiled(s) && |Entry(s).words| <= |s.rx.buffer|
    ensures Enabled(s, ADVANCE) && Loose(Next(s, ADVANCE))
    ensures Next(s, ADVANCE).call.reqCnt !in Next(s, ADVANCE).io.transmitted
  {
    hide OneFrameEach, Honest, Buffered;
  }

  lemma AdvanceClean(s: System)
    requires Inv(s) && s.call.requester.Snapped?
    ensures s.call.entry in s.regs && Enabled(s, ADVANCE)
    ensures Waits(Next(s, ADVANCE)) && Next(s, ADVANCE).call.spoiled == Spoiled(s)
  {
    hide OneFrameEach, Honest, Buffered, SentOnce;
  }

  /**
   * When the request counter advances: the attempt can end in a return that is no answer to it if and
   * only if a loose end is there. It then can do so without being sent at all.
   */
  lemma SpoiledExactly(s: System)
    requires Inv(s) && s.call.requester.Snapped? && |Entry(s).words| <= |s.rx.buffer|
    ensures Enabled(s, ADVANCE)
    ensures (exists acts :: EndsAttempt(Next(s, ADVANCE), acts) && !Answers(Run(Next(s, ADVANCE), acts + [CHECK])))
            <==> Spoiled(s)
  {
    hide Inv, Spoiled, Answers, Runs, Run, Next, Enabled;
    AdvanceClean(s);
    var u := Next(s, ADVANCE);
    if Spoiled(s) {
      AdvanceLoose(s);
      var acts := LooseReturns(u);
      NotSent(Run(u, acts + [CHECK]));
    } else {
      InvStep(s, ADVANCE);
      forall acts | EndsAttempt(u, acts) ensures Answers(Run(u, acts + [CHECK])) {
        AttemptAnswers(u, acts);
      }
    }
  }

  lemma NotSent(t: System)
    requires t.call.reqCnt !in t.io.transmitted
    ensures !Answers(t)
  {
  }

  lemma AttemptAnswers(u: System, acts: seq<Action>)
    requires Inv(u) && Waits(u) && !u.call.spoiled && EndsAttempt(u, acts)
    ensures Answers(Run(u, acts + [CHECK]))
  {
    hide Inv, Answers, Waits;
    SplitRun(u, acts, CHECK);
    SameAttempt(u, acts);
    CheckSpoils(Run(u, acts));
    ReturnAnswers(u, acts);
  }

  /* ----- The counters in one step ----- */

  /** The response counter is noted and the request counter advanced without anything in between. */
  predicate Undivided(s: System, acts: seq<Action>) {
    && (s.call.requester.Snapped? ==> s.call.requester.currResp == s.rx.respCnt && acts != [] && acts[0] == ADVANCE)
    && forall i :: 0 <= i < |acts| && acts[i] == Requesting(Snapshot) ==> i + 1 < |acts| && acts[i + 1] == ADVANCE
  }

  /** The receive thread has nothing in hand when an attempt is issued. */
  predicate EmptyHanded(s: System, acts: seq<Action>)
    requires Runs(s, acts)
    decreases |acts|
  {
    acts == []
    || ((acts[0] == ADVANCE ==> s.rx.pc == Listening) && EmptyHanded(Next(s, acts[0]), acts[1..]))
  }

  lemma UndividedStep(s: System, acts: seq<Action>)
    requires acts != [] && Enabled(s, acts[0]) && Undivided(s, acts) && !s.call.spoiled
    requires acts[0] == ADVANCE ==> s.rx.pc == Listening
    ensures Undivided(Next(s, acts[0]), acts[1..]) && !Next(s, acts[0]).call.spoiled
  {
    hide NextNet, NetEnabled, NextIo, IoEnabled, AllOnes, FrameOf;
    var t := Next(s, acts[0]);
    assert acts[0] == Requesting(Snapshot) ==> acts[0 + 1] == ADVANCE;
    forall i | 0 <= i < |acts| - 1 && acts[1..][i] == Requesting(Snapshot)
      ensures i + 1 < |acts| - 1 && acts[1..][i + 1] == ADVANCE
    {
      assert acts[i + 1] == Requesting(Snapshot);
    }
    if acts[0].Sending? { IoStepUnder(s, acts[0].i, 0); }
  }

  lemma {:induction false} UndividedNeverSpoils(s: System, acts: seq<Action>)
    requires Runs(s, acts) && Undivided(s, acts) && EmptyHanded(s, acts) && !s.call.spoiled
    ensures !Run(s, acts).call.spoiled
    decreases |acts|
  {
    hide Undivided, Next, Enabled;
    if acts != [] {
      UndividedStep(s, acts);
      UndividedNeverSpoils(Next(s, acts[0]), acts[1..]);
    }
  }

  /** When every attempt is issued in one piece and with no response in hand, a return always is an answer. */
  lemma UndividedReturnIsGenuine(s: System, acts: seq<Action>)
    requires Initial(s) && Returns(s, acts)
    requires Undivided(s, acts + [CHECK]) && EmptyHanded(s, acts + [CHECK])
    ensures Answers(Run(s, acts + [CHECK]))
  {
    hide Undivided, EmptyHanded, Answers, Inv;
    UndividedNeverSpoils(s, acts + [CHECK]);
    InitialInv(s);
    ReturnAnswers(s, acts);
  }

  /* ----- How responses are taken ----- */

  /** The receive thread takes a response in hand, and compares its address. */
  function Matching(r: Response): seq<Action> {
    [Receiving(Receive(r)), Receiving(CompareAddress)]
  }

  /** It copies the words of one that matches a read. */
  function Fetching(write: bool): seq<Action> {
    [Receiving(TestWrite)] + if write then [] else [Receiving(Copy)]
  }

  /** It says how the request went. */
  const COUNTING_IT: seq<Action> := [Receiving(SetStatus), Receiving(Count)]

  /** The words a register has after a response of that status. */
  ghost predicate Brought(was: seq<Word>, now: seq<Word>, r: Response) {
    && |now| == |was|
    && if r.status == 0 then forall i :: 0 <= i < |now| && i < |r.words| ==> now[i] == r.words[i]
       else forall i :: 0 <= i < |now| ==> now[i] == 0xFFFF_FFFF
  }

  /** `v` is `u` with the words of the response in the register, if that was read. */
  ghost predicate Fetched(u: System, v: System, r: Response)
    requires u.call.entry in u.regs
  {
    && v.call == u.call && v.io == u.io && v.net == u.net && v.rx == u.rx.(pc := Copied(r))
    && v.regs.Keys == u.regs.Keys && (forall i :: i in u.regs && i != u.call.entry ==> v.regs[i] == u.regs[i])
    && Entry(v).address == Entry(u).address
    && if u.call.write then Entry(v).words == Entry(u).words else Brought(Entry(u).words, Entry(v).words, r)
  }

  /** `t` is `v` with the status of the response in the register, and the response counted. */
  function Noticed(v: System, r: Response): System
    requires v.call.entry in v.regs
  {
    v.(regs := v.regs[v.call.entry := Entry(v).(status := r.status)],
       rx := v.rx.(pc := Listening, heard := Some(r), respCnt := v.rx.respCnt + 1))
  }

  /** The response has been received and matched. */
  function WithMatch(u: System, r: Response): System
    requires |r.words| <= |u.rx.buffer|
  {
    u.(net := u.net.(responses := u.net.responses - {r}),
       rx := u.rx.(pc := Matched(r), buffer := r.words + u.rx.buffer[|r.words|..]))
  }

  lemma AnswerIsMatched(u: System, r: Response)
    requires Known(u) && u.rx.pc == Listening && r in u.net.responses
    requires r.context == u.call.reqCnt && r.address == Entry(u).address && |r.words| <= |u.rx.buffer|
    ensures Runs(u, Matching(r)) && Run(u, Matching(r)) == WithMatch(u, r)
  {
    hide Runs, Run, NextCall, CallEnabled, NextIo, IoEnabled, NextNet, NetEnabled, FrameOf, AllOnes;
    EmptyRun(u);
    var acts, t := Extend(u, [], u, Receiving(Receive(r)));
    acts, t := Extend(u, acts, t, Receiving(CompareAddress));
    assert acts == Matching(r);
  }

  lemma MatchIsFetched(u: System, r: Response)
    requires Known(u) && u.rx.pc == Matched(r) && r.words <= u.rx.buffer && |Entry(u).words| <= |u.rx.buffer|
    ensures Runs(u, Fetching(u.call.write)) && Fetched(u, Run(u, Fetching(u.call.write)), r)
  {
    hide Runs, Run, NextCall, CallEnabled, NextIo, IoEnabled, NextNet, NetEnabled, FrameOf;
    EmptyRun(u);
    var acts, t := Extend(u, [], u, Receiving(TestWrite));
    if !u.call.write {
      acts, t := Extend(u, acts, t, Receiving(Copy));
      assert Brought(Entry(u).words, Entry(t).words, r);
    }
    assert acts == Fetching(u.call.write);
  }

  lemma CopyIsNoticed(v: System, r: Response)
    requires Known(v) && v.rx.pc == Copied(r)
    ensures Runs(v, COUNTING_IT) && Run(v, COUNTING_IT) == Noticed(v, r)
  {
    hide Runs, Run, NextCall, CallEnabled, NextIo, IoEnabled, NextNet, NetEnabled, FrameOf, AllOnes;
    EmptyRun(v);
    var acts, t := Extend(v, [], v, Receiving(SetStatus));
    acts, t := Extend(v, acts, t, Receiving(Count));
    assert acts == COUNTING_IT;
  }

  /**
   * A response to the latest attempt that fits, whatever its status: it is taken from the link, its words go
   * to a register that is read, ones if the status is bad, its status to the register, and it is counted.
   */
  lemma AnswerIsTaken(u: System, r: Response)
    requires Known(u) && u.rx.pc == Listening && r in u.net.responses
    requires r.context == u.call.reqCnt && r.address == Entry(u).address
    requires |r.words| <= |u.rx.buffer| && |Entry(u).words| <= |u.rx.buffer|
    ensures Runs(u, Matching(r) + Fetching(u.call.write) + COUNTING_IT)
    ensures exists v :: Fetched(WithMatch(u, r), v, r)
                        && Run(u, Matching(r) + Fetching(u.call.write) + COUNTING_IT) == Noticed(v, r)
  {
    hide Runs, Run, Matching, Fetching, Brought;
    AnswerIsMatched(u, r);
    MatchIsFetched(WithMatch(u, r), r);
    var v := Run(WithMatch(u, r), Fetching(u.call.write));
    CopyIsNoticed(v, r);
    Chain(u, Matching(r), Fetching(u.call.write));
    Chain(u, Matching(r) + Fetching(u.call.write), COUNTING_IT);
  }

  /** Any other response leaves registers and counters alone. */
  lemma OthersAreDropped(u: System, r: Response)
    requires Known(u) && u.rx.pc == Listening && r in u.net.responses
    requires r.context != u.call.reqCnt || r.address != Entry(u).address || |r.words| > |u.rx.buffer|
    ensures var t := Next(u, Receiving(Receive(r)));
            var v := if t.rx.pc == Listening then t else Next(t, Receiving(CompareAddress));
            && v.rx.pc == Listening && v.regs == u.regs && v.call == u.call && v.io == u.io
            && v.rx.respCnt == u.rx.respCnt && v.rx.heard == u.rx.heard
            && v.net == u.net.(responses := u.net.responses - {r})
  {
    hide AllOnes;
  }

  /* ----- Two runs that go wrong ----- */

  /** One register, nothing under way. */
  function Quiet(): (s: System)
    ensures Initial(s)
  {
    System(map[0 := Register(0, [0], 0)], 8, Call(0, false, true, 0, 0, Idle, Returned, 0, false, false),
           Io(Resting, 0, []), Net({}, {}, map[0 := [9]], []), Rx(Listening, [0, 0, 0, 0, 0, 0, 0, 0], 0, None))
  }

  /** The first attempt of a read has been sent and answered, and the answer is on its way. */
  function Answered1(): System {
    System(map[0 := Register(0, [0], 0)], 8, Call(0, false, true, 1, 1, Issued(0), Running, 0, false, false),
           Io(Resting, 1, [1]), Net({}, {Response(1, 0, 0, [9])}, map[0 := [9]], [Request(1, 0, false, [])]),
           Rx(Listening, [0, 0, 0, 0, 0, 0, 0, 0], 0, None))
  }

  lemma Extend(s: System, acts: seq<Action>, t: System, a: Action) returns (more: seq<Action>, u: System)
    requires Runs(s, acts) && Run(s, acts) == t && Enabled(t, a)
    ensures more == acts + [a] && u == Next(t, a) && Runs(s, more) && Run(s, more) == u
  {
    hide Enabled, Next;
    more, u := acts + [a], Next(t, a);
    SplitRun(s, acts, a);
  }

  const LATE := Response(1, 0, 0, [9])

  /** A read is sent and answered. */
  const FIRST: seq<Action> := [
    Requesting(Begin(0, false, true)), Requesting(SetWrite), Requesting(Snapshot), ADVANCE,
    Sending(Select), Sending(Load), Sending(Transmit), Sending(Note),
    Linking(Process(Request(1, 0, false, []), LATE, true))]

  lemma FirstAnswered()
    ensures Runs(Quiet(), FIRST) && Run(Quiet(), FIRST) == Answered1()
  {
    hide Runs, Run, NextRx, RxEnabled, AllOnes;
    EmptyRun(Quiet());
    var acts, t := [], Quiet();
    acts, t := Extend(Quiet(), acts, t, FIRST[0]);
    acts, t := Extend(Quiet(), acts, t, FIRST[1]);
    acts, t := Extend(Quiet(), acts, t, FIRST[2]);
    acts, t := Extend(Quiet(), acts, t, FIRST[3]);
    acts, t := Extend(Quiet(), acts, t, FIRST[4]);
    acts, t := Extend(Quiet(), acts, t, FIRST[5]);
    acts, t := Extend(Quiet(), acts, t, FIRST[6]);
    acts, t := Extend(Quiet(), acts, t, FIRST[7]);
    acts, t := Extend(Quiet(), acts, t, FIRST[8]);
    assert acts == FIRST;
    assert t == Answered1();
  }

  lemma EmptyRun(s: System)
    ensures Runs(s, []) && Run(s, []) == s
  {
  }

  /** The attempt times out, and the answer is matched after the response counter has been noted. */
  const NOTING: seq<Action> := [
    Requesting(Timeout), Requesting(Snapshot), Receiving(Receive(LATE)), Receiving(CompareAddress)]

  function Noted1(): System {
    System(map[0 := Register(0, [0], 0)], 8, Call(0, false, true, 1, 1, Snapped(0), Running, 0, false, false),
           Io(Resting, 1, [1]), Net({}, {}, map[0 := [9]], [Request(1, 0, false, [])]),
           Rx(Matched(LATE), [9, 0, 0, 0, 0, 0, 0, 0], 0, None))
  }

  /** And counted. */
  const COUNTING: seq<Action> := [
    Receiving(TestWrite), Receiving(Copy), Receiving(SetStatus), Receiving(Count)]

  function Counted1(): System {
    System(map[0 := Register(0, [9], 0)], 8, Call(0, false, true, 1, 1, Snapped(0), Running, 0, false, false),
           Io(Resting, 1, [1]), Net({}, {}, map[0 := [9]], [Request(1, 0, false, [])]),
           Rx(Listening, [9, 0, 0, 0, 0, 0, 0, 0], 1, Some(LATE)))
  }

  const COUNTED: seq<Action> := NOTING + COUNTING + [ADVANCE, Requesting(See)]

  /** The answer is in hand when the first attempt times out; the two counters are handled without a break. */
  const MATCHING: seq<Action> := [
    Receiving(Receive(LATE)), Receiving(CompareAddress), Requesting(Timeout), Requesting(Snapshot), ADVANCE]

  function Matched1(): System {
    System(map[0 := Register(0, [0], 0)], 8, Call(0, false, true, 2, 2, Issued(0), Running, 0, true, true),
           Io(Resting, 1, [1]), Net({}, {}, map[0 := [9]], [Request(1, 0, false, [])]),
           Rx(Matched(LATE), [9, 0, 0, 0, 0, 0, 0, 0], 0, None))
  }

  const MATCHED: seq<Action> := MATCHING
    + [Receiving(TestWrite), Receiving(Copy), Receiving(SetStatus), Receiving(Count), Requesting(See)]

  /** A waited call returns on its second attempt, which has never been sent. */
  predicate ReturnsUnsent(s: System, acts: seq<Action>) {
    && Returns(s, acts)
    && var t := Run(s, acts + [CHECK]);
       t.call.wait && t.call.reqCnt == 2 && t.io.transmitted == [1] && !Answers(t)
  }

  /** A late response that is counted after the response counter is noted and before the request counter advances. */
  lemma RacedReturn()
    ensures ReturnsUnsent(Quiet(), FIRST + COUNTED)
  {
    FirstAnswered();
    CountedReturns();
    Chain(Quiet(), FIRST, COUNTED + [CHECK]);
    assert FIRST + (COUNTED + [CHECK]) == (FIRST + COUNTED) + [CHECK];
  }

  /** A late response that has been matched when the first attempt times out; no step comes between the counters. */
  lemma MatchedReturn()
    ensures ReturnsUnsent(Quiet(), FIRST + MATCHED) && Undivided(Quiet(), FIRST + MATCHED + [CHECK])
  {
    FirstAnswered();
    MatchedReturns();
    hide Undivided, Answers;
    Chain(Quiet(), FIRST, MATCHED + [CHECK]);
    assert FIRST + (MATCHED + [CHECK]) == (FIRST + MATCHED) + [CHECK];
    MatchedUndivided();
  }

  lemma MatchedUndivided()
    ensures Undivided(Quiet(), FIRST + MATCHED + [CHECK])
  {
    var acts := FIRST + MATCHED + [CHECK];
    assert acts[2] == Requesting(Snapshot) && acts[3] == ADVANCE;
    assert acts[12] == Requesting(Snapshot) && acts[13] == ADVANCE;
    forall i | 0 <= i < |acts| && acts[i] == Requesting(Snapshot) ensures i == 2 || i == 12 {
      if i < 9 { assert acts[i] == FIRST[i]; } else if i < 19 { assert acts[i] == MATCHED[i - 9]; }
    }
  }

  lemma {:induction false} Chain(s: System, a: seq<Action>, b: seq<Action>)
    requires Runs(s, a) && Runs(Run(s, a), b)
    ensures Runs(s, a + b) && Run(s, a + b) == Run(Run(s, a), b)
    decreases |a|
  {
    hide Next, Enabled;
    if a == [] {
      assert a + b == b;
    } else {
      assert (a + b)[1..] == a[1..] + b;
      Chain(Next(s, a[0]), a[1..], b);
    }
  }

  lemma LateAnswerMatched()
    ensures Runs(Answered1(), NOTING) && Run(Answered1(), NOTING) == Noted1()
  {
    hide Runs, Run, NextIo, IoEnabled, NextNet, NetEnabled, FrameOf, Spoiled, Hazard, AllOnes;
    EmptyRun(Answered1());
    var acts, t := [], Answered1();
    acts, t := Extend(Answered1(), acts, t, NOTING[0]);
    acts, t := Extend(Answered1(), acts, t, NOTING[1]);
    acts, t := Extend(Answered1(), acts, t, NOTING[2]);
    acts, t := Extend(Answered1(), acts, t, NOTING[3]);
    assert acts == NOTING && t.net == Noted1().net && t.rx == Noted1().rx;
  }

  lemma LateAnswerCounted()
    ensures Runs(Noted1(), COUNTING) && Run(Noted1(), COUNTING) == Counted1()
  {
    hide Runs, Run, NextIo, IoEnabled, NextNet, NetEnabled, NextCall, CallEnabled, FrameOf, AllOnes;
    EmptyRun(Noted1());
    var acts, t := [], Noted1();
    acts, t := Extend(Noted1(), acts, t, COUNTING[0]);
    acts, t := Extend(Noted1(), acts, t, COUNTING[1]);
    acts, t := Extend(Noted1(), acts, t, COUNTING[2]);
    acts, t := Extend(Noted1(), acts, t, COUNTING[3]);
    assert Noted1().rx.buffer[..1] == [9];
    assert acts == COUNTING && t.regs == Counted1().regs;
  }

  lemma CountedReturns()
    ensures Runs(Answered1(), COUNTED + [CHECK])
    ensures var t := Run(Answered1(), COUNTED + [CHECK]);
            && t.call.outcome == Returned && t.call.requester == Idle && t.call.wait && t.call.reqCnt == 2
            && t.io.transmitted == [1] && !Answers(t)
  {
    hide Runs, Run, NextIo, IoEnabled, NextNet, NetEnabled, NextRx, RxEnabled, FrameOf, Spoiled, Hazard;
    LateAnswerMatched();
    LateAnswerCounted();
    Chain(Answered1(), NOTING, COUNTING);
    var acts, t := Extend(Answered1(), NOTING + COUNTING, Counted1(), ADVANCE);
    acts, t := Extend(Answered1(), acts, t, Requesting(See));
    acts, t := Extend(Answered1(), acts, t, CHECK);
    assert acts == COUNTED + [CHECK];
  }

  lemma TimedOutMatched()
    ensures Runs(Answered1(), MATCHING) && Run(Answered1(), MATCHING) == Matched1()
  {
    hide Runs, Run, NextIo, IoEnabled, NextNet, NetEnabled, FrameOf, Reaches, FrameKind, OldWrite, Scribbles, Mistaken;
    EmptyRun(Answered1());
    var acts, t := [], Answered1();
    acts, t := Extend(Answered1(), acts, t, MATCHING[0]);
    acts, t := Extend(Answered1(), acts, t, MATCHING[1]);
    assert t.rx == Matched1().rx && t.net == Matched1().net;
    acts, t := Extend(Answered1(), acts, t, MATCHING[2]);
    acts, t := Extend(Answered1(), acts, t, MATCHING[3]);
    acts, t := Extend(Answered1(), acts, t, MATCHING[4]);
    assert acts == MATCHING;
  }

  lemma MatchedReturns()
    ensures Runs(Answered1(), MATCHED + [CHECK])
    ensures var t := Run(Answered1(), MATCHED + [CHECK]);
            && t.call.outcome == Returned && t.call.requester == Idle && t.call.wait && t.call.reqCnt == 2
            && t.io.transmitted == [1] && !Answers(t)
  {
    hide Runs, Run, NextIo, IoEnabled, NextNet, NetEnabled, FrameOf, Spoiled, Hazard, AllOnes;
    TimedOutMatched();
    var acts, t := Extend(Answered1(), MATCHING, Matched1(), Receiving(TestWrite));
    acts, t := Extend(Answered1(), acts, t, Receiving(Copy));
    acts, t := Extend(Answered1(), acts, t, Receiving(SetStatus));
    acts, t := Extend(Answered1(), acts, t, Receiving(Count));
    acts, t := Extend(Answered1(), acts, t, Requesting(See));
    acts, t := Extend(Answered1(), acts, t, CHECK);
    assert acts == MATCHED + [CHECK];
  }
}
