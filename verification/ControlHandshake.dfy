/**
 * Commands through shared memory: a client raises one 8-bit counter, the server answers by
 * making another one equal to it. Their single assignments interleave in any order.
 */
module ControlHandshake {
  import opened Options
  import opened Words

  const ARG_A_SIZE := 1048576
  const ARG_B_SIZE := 1024
  const RESULT_SIZE := 1024

  /** A string copied into a buffer of `size` characters, the last of which ends it. */
  function Clip(s: string, size: nat): (c: string)
    requires size > 0
    ensures c <= s && |c| < size
    ensures |c| == |s| || |c| == size - 1
  {
    if |s| < size then s else s[..size - 1]
  }

  datatype Shared = Shared(
    rdy: Byte,          // cmdRdyCount
    ack: Byte,          // cmdAckCount
    kind: Byte,         // cmdType
    argA: string,
    argB: string,
    result: string,
    error: string)

  const CLEARED := Shared(0, 0, 0, "", "", "", "")

  /** What the client passes; an argument it leaves out keeps its old value. */
  datatype Request = Request(kind: Byte, argA: Option<string>, argB: Option<string>)

  /** A command as the server finds it. */
  datatype Command = Command(kind: Byte, argA: string, argB: string)

  function Raised(count: Byte): Byte {
    (count + 1) % TWO_8
  }

  function SetArgA(m: Shared, a: Option<string>): Shared {
    if a.Some? then m.(argA := Clip(a.value, ARG_A_SIZE)) else m
  }

  function SetArgB(m: Shared, b: Option<string>): Shared {
    if b.Some? then m.(argB := Clip(b.value, ARG_B_SIZE)) else m
  }

  /** The command a request amounts to. */
  function Meant(m: Shared, r: Request): Command {
    Command(r.kind, SetArgA(m, r.argA).argA, SetArgB(m, r.argB).argB)
  }

  /** What sending a request leaves in the memory. */
  function WithCommand(m: Shared, r: Request): Shared {
    var c := Meant(m, r);
    m.(kind := c.kind, argA := c.argA, argB := c.argB, error := "", rdy := Raised(m.rdy))
  }

  /* ----- The memory object ----- */

  class ControlCmdMemory {
    var cmdRdyCount: Byte
    var cmdAckCount: Byte
    var cmdType: Byte
    var cmdArgA: string
    var cmdArgB: string
    var cmdResult: string
    var errorBuffer: string

    ghost function State(): Shared
      reads this
    {
      Shared(cmdRdyCount, cmdAckCount, cmdType, cmdArgA, cmdArgB, cmdResult, errorBuffer)
    }

    constructor ()
      ensures State() == CLEARED
    {
      cmdRdyCount, cmdAckCount, cmdType := 0, 0, 0;
      cmdArgA, cmdArgB, cmdResult, errorBuffer := "", "", "", "";
    }

    method SetCommand(r: Request)
      modifies this
      ensures State() == WithCommand(old(State()), r)
    {
      if r.argA.Some? { cmdArgA := Clip(r.argA.value, ARG_A_SIZE); }
      if r.argB.Some? { cmdArgB := Clip(r.argB.value, ARG_B_SIZE); }
      errorBuffer := "";
      cmdType := r.kind;
      cmdRdyCount := Raised(cmdRdyCount);
    }

    method GetCommand() returns (c: Option<Command>)
      ensures c == if State().rdy == State().ack then None
                   else Some(Command(State().kind, State().argA, State().argB))
    {
      if cmdRdyCount == cmdAckCount { return None; }
      c := Some(Command(cmdType, cmdArgA, cmdArgB));
    }

    method SetResult(result: string)
      modifies this`cmdResult
      ensures State() == old(State()).(result := Clip(result, RESULT_SIZE))
    {
      cmdResult := Clip(result, RESULT_SIZE);
    }

    method AckCommand()
      modifies this`cmdAckCount
      ensures State() == old(State()).(ack := old(State()).rdy)
    {
      cmdAckCount := cmdRdyCount;
    }

    method GetResult() returns (result: Option<string>)
      ensures result == if State().rdy != State().ack then None else Some(State().result)
    {
      if cmdRdyCount != cmdAckCount { return None; }
      result := Some(cmdResult);
    }
  }

  /** One pass of the server over the memory; `result` is what the system makes of the command. */
  method Serve(mem: ControlCmdMemory, result: string) returns (executed: Option<Command>)
    modifies mem
    ensures var m := old(mem.State());
            if m.rdy == m.ack then executed == None && mem.State() == m
            else executed == Some(Command(m.kind, m.argA, m.argB))
                 && mem.State() == m.(result := Clip(result, RESULT_SIZE), ack := m.rdy)
  {
    var shmPend := false;
    executed := mem.GetCommand();
    if executed.Some? {
      mem.SetResult(result);
      shmPend := true;
    }
    if shmPend { mem.AckCommand(); }
  }

  /* ----- The two programs, one assignment at a time ----- */

  datatype Client =
    | Idle
    | StoringA(request: Request)
    | StoringB(request: Request)
    | Clearing(request: Request)
    | StoringKind(request: Request)
    | Raising
    | Waiting
    | Copying               // has seen the counters equal

  datatype Server =
    | Top
    | Seen                  // has seen the counters differ
    | Got(kind: Byte)
    | Ran(result: string)
    | Pending
    | Acking(count: Byte)   // has read the counter it is going to acknowledge

  datatype System = System(
    mem: Shared,
    client: Client,
    server: Server,
    sent: seq<Command>,     // history: commands, as meant when the client began to send them
    ran: seq<Command>,      // history: commands executed
    results: seq<string>,   // history: their results
    answers: seq<string>    // history: results the client has read
  )

  const START := System(CLEARED, Idle, Top, [], [], [], [])

  datatype Action =
    | Send(request: Request)
    | StoreA
    | StoreB
    | ClearError
    | StoreKind
    | Raise
    | Compare
    | Copy
    | GiveUp
    | Look
    | Fetch
    | Execute(result: string)
    | Publish
    | ReadCount
    | Acknowledge

  predicate Enabled(s: System, a: Action) {
    match a
    case Send(_) => s.client == Idle
    case StoreA => s.client.StoringA?
    case StoreB => s.client.StoringB?
    case ClearError => s.client.Clearing?
    case StoreKind => s.client.StoringKind?
    case Raise => s.client == Raising
    case Compare => s.client == Waiting
    case Copy => s.client == Copying
    case GiveUp => s.client == Waiting
    case Look => s.server == Top
    case Fetch => s.server == Seen
    case Execute(_) => s.server.Got?
    case Publish => s.server.Ran?
    case ReadCount => s.server == Pending
    case Acknowledge => s.server.Acking?
  }

  function Next(s: System, a: Action): System
    requires Enabled(s, a)
  {
    match a
    case Send(r) => s.(client := StoringA(r), sent := s.sent + [Meant(s.mem, r)])
    case StoreA => s.(mem := SetArgA(s.mem, s.client.request.argA), client := StoringB(s.client.request))
    case StoreB => s.(mem := SetArgB(s.mem, s.client.request.argB), client := Clearing(s.client.request))
    case ClearError => s.(mem := s.mem.(error := ""), client := StoringKind(s.client.request))
    case StoreKind => s.(mem := s.mem.(kind := s.client.request.kind), client := Raising)
    case Raise => s.(mem := s.mem.(rdy := Raised(s.mem.rdy)), client := Waiting)
    case Compare => if s.mem.rdy == s.mem.ack then s.(client := Copying) else s
    case Copy => s.(client := Idle, answers := s.answers + [s.mem.result])
    case GiveUp => s.(client := Idle)
    case Look => if s.mem.rdy == s.mem.ack then s else s.(server := Seen)
    case Fetch => s.(server := Got(s.mem.kind))
    case Execute(result) =>
      s.(server := Ran(result), results := s.results + [result],
         ran := s.ran + [Command(s.server.kind, s.mem.argA, s.mem.argB)])
    case Publish => s.(mem := s.mem.(result := Clip(s.server.result, RESULT_SIZE)), server := Pending)
    case ReadCount => s.(server := Acking(s.mem.rdy))
    case Acknowledge => s.(mem := s.mem.(ack := s.server.count), server := Top)
  }

  /** The client's single assignments add up to `SetCommand`. */
  lemma StoresAddUp(s: System, r: Request)
    requires s.client == Idle
    ensures var t := Next(Next(Next(Next(Next(Next(s, Send(r)), StoreA), StoreB), ClearError), StoreKind), Raise);
            t == s.(mem := WithCommand(s.mem, r), client := Waiting, sent := s.sent + [Meant(s.mem, r)])
  {
  }

  /* ----- Exactly once ----- */

  /** The client has the memory to itself: everything sent before has been run and answered. */
  predicate Quiet(s: System) {
    s.mem.rdy == s.mem.ack && s.server == Top && |s.results| == |s.ran| == |s.answers|
  }

  predicate Preparing(s: System, c: Command) {
    Quiet(s) && s.sent == s.ran + [c]
  }

  predicate Holds(m: Shared, c: Command) {
    m.kind == c.kind && m.argA == c.argA && m.argB == c.argB
  }

  /** The latest command has been run and `result` belongs to it. */
  predicate Answered(s: System, result: string) {
    && s.ran == s.sent && |s.results| == |s.ran| == |s.answers| + 1
    && result == Clip(s.results[|s.results| - 1], RESULT_SIZE)
  }

  predicate InFlight(s: System) {
    && s.mem.rdy == Raised(s.mem.ack) && s.sent != []
    && Holds(s.mem, s.sent[|s.sent| - 1])
    && match s.server
       case Ran(r) => Answered(s, Clip(r, RESULT_SIZE))
       case Pending => Answered(s, s.mem.result)
       case Acking(count) => Answered(s, s.mem.result) && count == s.mem.rdy
       case _ =>
         && |s.results| == |s.ran| == |s.answers| && s.sent == s.ran + [s.sent[|s.sent| - 1]]
         && (s.server.Got? ==> s.server.kind == s.mem.kind)
  }

  predicate Done(s: System) {
    s.mem.rdy == s.mem.ack && s.server == Top && Answered(s, s.mem.result)
  }

  predicate Phase(s: System) {
    match s.client
    case Idle => Quiet(s) && s.sent == s.ran
    case StoringA(r) => Preparing(s, Meant(s.mem, r))
    case StoringB(r) => Preparing(s, Meant(s.mem, r.(argA := None)))
    case Clearing(r) => Preparing(s, Command(r.kind, s.mem.argA, s.mem.argB))
    case StoringKind(r) => Preparing(s, Command(r.kind, s.mem.argA, s.mem.argB))
    case Raising => Preparing(s, Command(s.mem.kind, s.mem.argA, s.mem.argB))
    case Waiting => InFlight(s) || Done(s)
    case Copying => Done(s)
  }

  ghost predicate AnswersMatch(s: System) {
    && |s.answers| <= |s.results|
    && forall i :: 0 <= i < |s.answers| ==> s.answers[i] == Clip(s.results[i], RESULT_SIZE)
  }

  lemma PhaseStep(s: System, a: Action)
    requires Enabled(s, a) && !a.GiveUp? && Phase(s)
    ensures Phase(Next(s, a))
  {
  }

  lemma AnswersStep(s: System, a: Action)
    requires Enabled(s, a) && !a.GiveUp? && Phase(s) && AnswersMatch(s)
    ensures AnswersMatch(Next(s, a))
  {
  }

  predicate Runs(s: System, acts: seq<Action>)
    decreases |acts|
  {
    acts == [] || (Enabled(s, acts[0]) && Runs(Next(s, acts[0]), acts[1..]))
  }

  function Run(s: System, acts: seq<Action>): System
    requires Runs(s, acts)
    decreases |acts|
  {
    if acts == [] then s else Run(Next(s, acts[0]), acts[1..])
  }

  lemma {:induction false} RunKeeps(s: System, acts: seq<Action>)
    requires Runs(s, acts) && GiveUp !in acts && Phase(s) && AnswersMatch(s)
    ensures Phase(Run(s, acts)) && AnswersMatch(Run(s, acts))
    decreases |acts|
  {
    hide Phase, AnswersMatch, Next, Enabled;
    if acts != [] {
      PhaseStep(s, acts[0]);
      AnswersStep(s, acts[0]);
      RunKeeps(Next(s, acts[0]), acts[1..]);
    }
  }

  /**
   * A client that waits for each answer has each of its commands run once, in order, and reads for each
   * the result that was set for it, for any number of commands.
   */
  lemma ExactlyOnce(acts: seq<Action>)
    requires Runs(START, acts) && GiveUp !in acts
    ensures var t := Run(START, acts);
            && t.ran <= t.sent && |t.sent| <= |t.ran| + 1
            && |t.answers| <= |t.results| == |t.ran| <= |t.answers| + 1
            && (forall i :: 0 <= i < |t.answers| ==> t.answers[i] == Clip(t.results[i], RESULT_SIZE))
            && (t.client == Idle ==> t.ran == t.sent && |t.answers| == |t.sent|)
  {
    RunKeeps(START, acts);
    PhaseCounts(Run(START, acts));
  }

  lemma PhaseCounts(t: System)
    requires Phase(t)
    ensures t.ran <= t.sent && |t.sent| <= |t.ran| + 1 && |t.answers| <= |t.results| == |t.ran| <= |t.answers| + 1
    ensures t.client == Idle ==> t.ran == t.sent && |t.answers| == |t.sent|
  {
  }

  /* ----- The same, read from the actions ----- */

  /** The requests sent in a run. */
  function Requests(acts: seq<Action>): seq<Request>
    decreases |acts|
  {
    if acts == [] then []
    else (if acts[0].Send? then [acts[0].request] else []) + Requests(acts[1..])
  }

  /** The results the system came to. */
  function Results(acts: seq<Action>): seq<string>
    decreases |acts|
  {
    if acts == [] then []
    else (if acts[0].Execute? then [acts[0].result] else []) + Results(acts[1..])
  }

  /** The commands the server had in its hands whenever it executed one. */
  function Executions(s: System, acts: seq<Action>): seq<Command>
    requires Runs(s, acts)
    decreases |acts|
  {
    if acts == [] then []
    else
      (if acts[0].Execute? then [Command(s.server.kind, s.mem.argA, s.mem.argB)] else [])
      + Executions(Next(s, acts[0]), acts[1..])
  }

  /** The results the client found whenever it copied one. */
  function Answers(s: System, acts: seq<Action>): seq<string>
    requires Runs(s, acts)
    decreases |acts|
  {
    if acts == [] then []
    else (if acts[0].Copy? then [s.mem.result] else []) + Answers(Next(s, acts[0]), acts[1..])
  }

  /** The first argument that was given last. */
  function LatestA(rs: seq<Request>): Option<string> {
    if rs == [] then None
    else if rs[|rs| - 1].argA.Some? then rs[|rs| - 1].argA else LatestA(rs[..|rs| - 1])
  }

  function LatestB(rs: seq<Request>): Option<string> {
    if rs == [] then None
    else if rs[|rs| - 1].argB.Some? then rs[|rs| - 1].argB else LatestB(rs[..|rs| - 1])
  }

  /** What arrives is what was given, whole if there is room for it. */
  predicate Arrives(got: string, given: Option<string>, size: nat)
    requires size > 0
  {
    match given
    case None => got == ""
    case Some(a) => if |a| < size then got == a else got == a[..size - 1]
  }

  predicate ArgsArrive(argA: string, argB: string, rs: seq<Request>) {
    Arrives(argA, LatestA(rs), 1048576) && Arrives(argB, LatestB(rs), 1024)
  }

  /** The commands are those of the requests. */
  ghost predicate SentTold(sent: seq<Command>, rs: seq<Request>) {
    && |sent| == |rs|
    && forall i :: 0 <= i < |rs| ==>
         sent[i].kind == rs[i].kind && ArgsArrive(sent[i].argA, sent[i].argB, rs[..i + 1])
  }

  /** The memory has the arguments of the latest request, as far as they have been stored. */
  predicate MemoryTold(s: System, rs: seq<Request>) {
    match s.client
    case StoringA(r) => rs != [] && r == rs[|rs| - 1] && ArgsArrive(s.mem.argA, s.mem.argB, rs[..|rs| - 1])
    case StoringB(r) =>
      && rs != [] && r == rs[|rs| - 1] && Arrives(s.mem.argA, LatestA(rs), ARG_A_SIZE)
      && Arrives(s.mem.argB, LatestB(rs[..|rs| - 1]), ARG_B_SIZE)
    case _ => ArgsArrive(s.mem.argA, s.mem.argB, rs)
  }

  ghost predicate Told(s: System, rs: seq<Request>) {
    SentTold(s.sent, rs) && MemoryTold(s, rs)
  }

  lemma ClipArrives(a: string, size: nat)
    requires size > 0
    ensures Arrives(Clip(a, size), Some(a), size)
  {
  }

  lemma MeantArrives(m: Shared, r: Request, rs: seq<Request>)
    requires ArgsArrive(m.argA, m.argB, rs)
    ensures ArgsArrive(Meant(m, r).argA, Meant(m, r).argB, rs + [r])
  {
    hide Arrives, Clip;
    assert (rs + [r])[..|rs + [r]| - 1] == rs;
    if r.argA.Some? { ClipArrives(r.argA.value, ARG_A_SIZE); }
    if r.argB.Some? { ClipArrives(r.argB.value, ARG_B_SIZE); }
  }

  lemma SentGrows(sent: seq<Command>, rs: seq<Request>, c: Command, r: Request)
    requires SentTold(sent, rs) && c.kind == r.kind && ArgsArrive(c.argA, c.argB, rs + [r])
    ensures SentTold(sent + [c], rs + [r])
  {
    hide ArgsArrive;
    var more := rs + [r];
    assert more[..|more|] == more;
    forall i | 0 <= i < |more|
      ensures (sent + [c])[i].kind == more[i].kind
              && ArgsArrive((sent + [c])[i].argA, (sent + [c])[i].argB, more[..i + 1])
    {
      if i < |rs| { assert more[..i + 1] == rs[..i + 1]; }
    }
  }

  lemma ToldStep(s: System, a: Action, rs: seq<Request>)
    requires Enabled(s, a) && Told(s, rs)
    ensures Told(Next(s, a), rs + if a.Send? then [a.request] else [])
  {
    hide Arrives, Clip, SentTold, LatestA, LatestB;
    assert rs + [] == rs;
    match a
    case Send(r) =>
      MeantArrives(s.mem, r, rs);
      SentGrows(s.sent, rs, Meant(s.mem, r), r);
      assert (rs + [r])[..|rs + [r]| - 1] == rs;
    case StoreA => StoredA(s, rs);
    case StoreB => StoredB(s, rs);
    case _ =>
  }

  lemma StoredA(s: System, rs: seq<Request>)
    requires s.client.StoringA? && MemoryTold(s, rs)
    ensures Arrives(SetArgA(s.mem, s.client.request.argA).argA, LatestA(rs), ARG_A_SIZE)
  {
    hide Arrives, Clip;
    if s.client.request.argA.Some? { ClipArrives(s.client.request.argA.value, ARG_A_SIZE); }
  }

  lemma StoredB(s: System, rs: seq<Request>)
    requires s.client.StoringB? && MemoryTold(s, rs)
    ensures Arrives(SetArgB(s.mem, s.client.request.argB).argB, LatestB(rs), ARG_B_SIZE)
  {
    hide Arrives, Clip;
    if s.client.request.argB.Some? { ClipArrives(s.client.request.argB.value, ARG_B_SIZE); }
  }

  lemma {:induction false} RunTold(s: System, acts: seq<Action>, rs: seq<Request>)
    requires Runs(s, acts) && Told(s, rs)
    ensures Told(Run(s, acts), rs + Requests(acts))
    decreases |acts|
  {
    hide Told, Next, Enabled;
    if acts == [] {
      assert rs + [] == rs;
    } else {
      var now := if acts[0].Send? then [acts[0].request] else [];
      ToldStep(s, acts[0], rs);
      RunTold(Next(s, acts[0]), acts[1..], rs + now);
      assert rs + now + Requests(acts[1..]) == rs + (now + Requests(acts[1..]));
    }
  }

  lemma SeenStep(s: System, a: Action)
    requires Enabled(s, a)
    ensures var t := Next(s, a);
            && t.ran == s.ran + (if a.Execute? then [Command(s.server.kind, s.mem.argA, s.mem.argB)] else [])
            && t.results == s.results + (if a.Execute? then [a.result] else [])
            && t.answers == s.answers + (if a.Copy? then [s.mem.result] else [])
  {
    hide SetArgA, SetArgB, Meant, Clip;
  }

  /** The histories are what was there to be seen. */
  lemma {:induction false} RunSeen(s: System, acts: seq<Action>)
    requires Runs(s, acts)
    ensures var t := Run(s, acts);
            && t.ran == s.ran + Executions(s, acts) && t.results == s.results + Results(acts)
            && t.answers == s.answers + Answers(s, acts)
    decreases |acts|
  {
    hide Next;
    if acts == [] {
      assert s.ran + [] == s.ran && s.results + [] == s.results && s.answers + [] == s.answers;
    } else {
      var a, v := acts[0], Next(s, acts[0]);
      SeenStep(s, a);
      RunSeen(v, acts[1..]);
      var ran := if a.Execute? then [Command(s.server.kind, s.mem.argA, s.mem.argB)] else [];
      Associate(s.ran, ran, Executions(v, acts[1..]));
      Associate(s.results, if a.Execute? then [a.result] else [], Results(acts[1..]));
      Associate(s.answers, if a.Copy? then [s.mem.result] else [], Answers(v, acts[1..]));
    }
  }

  lemma Associate<T>(a: seq<T>, b: seq<T>, c: seq<T>)
    ensures (a + b) + c == a + (b + c)
  {
  }

  /**
   * The i-th command executed has the kind of the i-th request and the arguments given with it, or last
   * before it; the i-th answer is the i-th result. None is left out when the client is idle.
   */
  lemma RequestsArrive(acts: seq<Action>)
    requires Runs(START, acts) && GiveUp !in acts
    ensures var rs, xs := Requests(acts), Results(acts);
            var es, ans := Executions(START, acts), Answers(START, acts);
            && |es| <= |rs| <= |es| + 1 && |ans| <= |xs| == |es| <= |ans| + 1
            && (forall i :: 0 <= i < |es| ==>
                  es[i].kind == rs[i].kind && ArgsArrive(es[i].argA, es[i].argB, rs[..i + 1]))
            && (forall i :: 0 <= i < |ans| ==> Arrives(ans[i], Some(xs[i]), 1024))
            && (Run(START, acts).client == Idle ==> |ans| == |es| == |rs|)
  {
    hide Phase, AnswersMatch, Runs, Run, Requests, Results, Executions, Answers, ArgsArrive, Arrives, Clip, Told;
    ExactlyOnce(acts);
    RunSeen(START, acts);
    RequestsTold(acts);
    var t := Run(START, acts);
    assert t.ran == Executions(START, acts) && t.results == Results(acts) && t.answers == Answers(START, acts);
    forall i | 0 <= i < |t.ran|
      ensures t.ran[i].kind == Requests(acts)[i].kind
              && ArgsArrive(t.ran[i].argA, t.ran[i].argB, Requests(acts)[..i + 1])
    {
      assert t.ran[i] == t.sent[i];
    }
    forall i | 0 <= i < |t.answers| ensures Arrives(t.answers[i], Some(t.results[i]), RESULT_SIZE) {
      ClipArrives(t.results[i], RESULT_SIZE);
    }
  }

  lemma RequestsTold(acts: seq<Action>)
    requires Runs(START, acts)
    ensures SentTold(Run(START, acts).sent, Requests(acts))
  {
    assert SentTold([], []) && MemoryTold(START, []);
    RunTold(START, acts, []);
    assert [] + Requests(acts) == Requests(acts);
  }

  /** The steps of the client's call. */
  function Sending(r: Request): seq<Action> {
    [Send(r), StoreA, StoreB, ClearError, StoreKind, Raise]
  }

  /** What the server does, and the client reading the answer. */
  function Serving(x: string): seq<Action> {
    [Look, Fetch, Execute(x), Publish] + [ReadCount, Acknowledge, Compare, Copy]
  }

  lemma RunsOn(s: System, acts: seq<Action>, t: System, a: Action) returns (more: seq<Action>, u: System)
    requires Runs(s, acts) && Run(s, acts) == t && Enabled(t, a)
    ensures more == acts + [a] && u == Next(t, a) && Runs(s, more) && Run(s, more) == u
  {
    hide Enabled, Next;
    u := Next(t, a);
    more := Extend(s, acts, t, a);
  }

  lemma SendingRuns(s: System, r: Request)
    requires s.client == Idle
    ensures Runs(s, Sending(r))
    ensures Run(s, Sending(r))
            == s.(mem := WithCommand(s.mem, r), client := Waiting, sent := s.sent + [Meant(s.mem, r)])
  {
    hide Run, Runs, Next, Enabled, WithCommand, Meant;
    StoresAddUp(s, r);
    StoresEnabled(s, r);
    EmptyRun(s);
    var acts, t := RunsOn(s, [], s, Send(r));
    acts, t := RunsOn(s, acts, t, StoreA);
    acts, t := RunsOn(s, acts, t, StoreB);
    acts, t := RunsOn(s, acts, t, ClearError);
    acts, t := RunsOn(s, acts, t, StoreKind);
    acts, t := RunsOn(s, acts, t, Raise);
    assert acts == Sending(r);
  }

  lemma StoresEnabled(s: System, r: Request)
    requires s.client == Idle
    ensures Enabled(s, Send(r)) && Enabled(Next(s, Send(r)), StoreA) && Enabled(Next(Next(s, Send(r)), StoreA), StoreB)
    ensures var t := Next(Next(Next(s, Send(r)), StoreA), StoreB);
            && Enabled(t, ClearError) && Enabled(Next(t, ClearError), StoreKind)
            && Enabled(Next(Next(t, ClearError), StoreKind), Raise)
  {
    hide SetArgA, SetArgB, Meant;
  }

  /** The command has been run and its result set. */
  function Served(s: System, x: string): System {
    s.(mem := s.mem.(result := Clip(x, RESULT_SIZE)), server := Pending,
       ran := s.ran + [Command(s.mem.kind, s.mem.argA, s.mem.argB)], results := s.results + [x])
  }

  lemma ServerRuns(s: System, x: string)
    requires s.client == Waiting && s.server == Top && s.mem.rdy != s.mem.ack
    ensures Runs(s, [Look, Fetch, Execute(x), Publish]) && Run(s, [Look, Fetch, Execute(x), Publish]) == Served(s, x)
  {
    hide Run, Runs, Clip, SetArgA, SetArgB;
    EmptyRun(s);
    var acts, t := RunsOn(s, [], s, Look);
    acts, t := RunsOn(s, acts, t, Fetch);
    acts, t := RunsOn(s, acts, t, Execute(x));
    acts, t := RunsOn(s, acts, t, Publish);
    assert acts == [Look, Fetch, Execute(x), Publish];
  }

  lemma AnswerRuns(s: System)
    requires s.client == Waiting && s.server == Pending
    ensures Runs(s, [ReadCount, Acknowledge, Compare, Copy])
    ensures Run(s, [ReadCount, Acknowledge, Compare, Copy])
            == s.(mem := s.mem.(ack := s.mem.rdy), server := Top, client := Idle, answers := s.answers + [s.mem.result])
  {
    hide Run, Runs, Clip, SetArgA, SetArgB;
    EmptyRun(s);
    var acts, t := RunsOn(s, [], s, ReadCount);
    acts, t := RunsOn(s, acts, t, Acknowledge);
    acts, t := RunsOn(s, acts, t, Compare);
    acts, t := RunsOn(s, acts, t, Copy);
    assert acts == [ReadCount, Acknowledge, Compare, Copy];
  }

  lemma ServingRuns(s: System, x: string)
    requires s.client == Waiting && s.server == Top && s.mem.rdy != s.mem.ack
    ensures Runs(s, Serving(x))
    ensures Run(s, Serving(x))
            == s.(mem := s.mem.(result := Clip(x, RESULT_SIZE), ack := s.mem.rdy), client := Idle,
                  ran := s.ran + [Command(s.mem.kind, s.mem.argA, s.mem.argB)], results := s.results + [x],
                  answers := s.answers + [Clip(x, RESULT_SIZE)])
  {
    hide Run, Runs, Clip, Next, Enabled;
    ServerRuns(s, x);
    AnswerRuns(Served(s, x));
    Chain(s, [Look, Fetch, Execute(x), Publish], [ReadCount, Acknowledge, Compare, Copy]);
  }

  /** An idle client and a server with nothing to do: the command is run, and its result read. */
  lemma RoundWorks(s: System, r: Request, x: string)
    requires s.client == Idle && s.server == Top && s.mem.rdy == s.mem.ack
    ensures Runs(s, Sending(r) + Serving(x))
    ensures var t := Run(s, Sending(r) + Serving(x));
            && t.client == Idle && t.server == Top && t.mem.rdy == t.mem.ack && t.mem.error == ""
            && t.sent == s.sent + [Meant(s.mem, r)] && t.ran == s.ran + [Meant(s.mem, r)]
            && t.results == s.results + [x] && t.answers == s.answers + [Clip(x, RESULT_SIZE)]
  {
    hide Run, Runs, Clip, Sending, Serving;
    SendingRuns(s, r);
    assert Raised(s.mem.rdy) != s.mem.ack;
    ServingRuns(Run(s, Sending(r)), x);
    Chain(s, Sending(r), Serving(x));
  }

  /* ----- A client that does not wait ----- */

  /** The client gives up on its command and sends another one before the server acknowledges. */
  function Overtaking(r: Request): seq<Action> {
    [GiveUp] + ([Send(r)] + ([StoreA] + ([StoreB] + ([ClearError] + Announcing()))))
  }

  function Announcing(): seq<Action> {
    [StoreKind] + ([Raise] + ([ReadCount] + [Acknowledge]))
  }

  lemma RunOne(s: System, a: Action, rest: seq<Action>)
    requires Enabled(s, a) && Runs(Next(s, a), rest)
    ensures Runs(s, [a] + rest) && Run(s, [a] + rest) == Run(Next(s, a), rest)
  {
    assert ([a] + rest)[1..] == rest;
  }

  lemma EmptyRun(s: System)
    ensures Runs(s, []) && Run(s, []) == s
  {
  }

  /** The server reads the counter only after it has been raised again. */
  lemma Announced(s: System)
    requires s.client.StoringKind? && s.server == Pending
    ensures Runs(s, Announcing())
    ensures var m := s.mem.(kind := s.client.request.kind, rdy := Raised(s.mem.rdy));
            Run(s, Announcing()) == s.(mem := m.(ack := m.rdy), client := Waiting, server := Top)
  {
    hide Run, Runs;
    var s1 := Next(s, StoreKind);
    var s2 := Next(s1, Raise);
    var s3 := Next(s2, ReadCount);
    EmptyRun(Next(s3, Acknowledge));
    assert [Acknowledge] + [] == [Acknowledge];
    RunOne(s3, Acknowledge, []);
    RunOne(s2, ReadCount, [Acknowledge]);
    RunOne(s1, Raise, [ReadCount] + [Acknowledge]);
    RunOne(s, StoreKind, [Raise] + ([ReadCount] + [Acknowledge]));
  }

  /** From any state in which a result has been set and not acknowledged, the second command is never run. */
  lemma GivingUpLosesTheNext(s: System, r: Request)
    requires s.client == Waiting && s.server == Pending
    ensures Runs(s, Overtaking(r))
    ensures var t := Run(s, Overtaking(r));
            && t.sent == s.sent + [Meant(s.mem, r)] && t.ran == s.ran
            && t.mem.rdy == t.mem.ack && t.client == Waiting && t.server == Top
  {
    hide Run, Runs, Announcing;
    var s1 := Next(s, GiveUp);
    var s2 := Next(s1, Send(r));
    var s3 := Next(s2, StoreA);
    var s4 := Next(s3, StoreB);
    Announced(Next(s4, ClearError));
    RunOne(s4, ClearError, Announcing());
    RunOne(s3, StoreB, [ClearError] + Announcing());
    RunOne(s2, StoreA, [StoreB] + ([ClearError] + Announcing()));
    RunOne(s1, Send(r), [StoreA] + ([StoreB] + ([ClearError] + Announcing())));
    RunOne(s, GiveUp, [Send(r)] + ([StoreA] + ([StoreB] + ([ClearError] + Announcing()))));
  }

  /** What the server still does once the second command is raised, by where it stands; `x` is a result. */
  function Rest(server: Server, x: string): seq<Action>
    decreases Rank(server)
  {
    match server
    case Pending => [ReadCount] + [Acknowledge]
    case Ran(_) => [Publish] + Rest(Pending, x)
    case Got(_) => [Execute(x)] + Rest(Ran(x), x)
    case Seen => [Fetch] + Rest(Got(0), x)
    case Top => [Look] + Rest(Seen, x)
    case Acking(_) => [Acknowledge] + Rest(Top, x)
  }

  function Rank(server: Server): nat {
    match server
    case Pending => 0
    case Ran(_) => 1
    case Got(_) => 2
    case Seen => 3
    case Top => 4
    case Acking(_) => 5
  }

  /** The commands it runs meanwhile. */
  function RunBy(u: System): seq<Command> {
    match u.server
    case Pending => []
    case Ran(_) => []
    case Got(k) => [Command(k, u.mem.argA, u.mem.argB)]
    case _ => [Command(u.mem.kind, u.mem.argA, u.mem.argB)]
  }

  lemma {:induction false} ServerFinishes(u: System, x: string)
    requires u.mem.rdy != u.mem.ack && (u.server.Acking? ==> u.server.count != u.mem.rdy)
    ensures Runs(u, Rest(u.server, x))
    ensures var t := Run(u, Rest(u.server, x));
            && t.server == Top && t.mem.rdy == t.mem.ack && t.client == u.client && t.sent == u.sent
            && t.ran == u.ran + RunBy(u)
    decreases Rank(u.server)
  {
    hide Run, Runs;
    match u.server
    case Pending =>
      var v := Next(u, ReadCount);
      EmptyRun(Next(v, Acknowledge));
      assert [Acknowledge] + [] == [Acknowledge];
      RunOne(v, Acknowledge, []);
      RunOne(u, ReadCount, [Acknowledge]);
    case _ =>
      var a := FirstOf(u.server, x);
      ServerFinishes(Next(u, a), x);
      RestOf(u.server, Next(u, a).server, x);
      RunOne(u, a, Rest(Next(u, a).server, x));
      assert u.ran + RunBy(u) == Next(u, a).ran + RunBy(Next(u, a));
  }

  function FirstOf(server: Server, x: string): Action
    requires server != Pending
  {
    match server
    case Ran(_) => Publish
    case Got(_) => Execute(x)
    case Seen => Fetch
    case Top => Look
    case Acking(_) => Acknowledge
  }

  lemma RestOf(server: Server, next: Server, x: string)
    requires server != Pending && Rank(next) + 1 == Rank(server)
    ensures Rest(server, x) == [FirstOf(server, x)] + Rest(next, x)
  {
    match server
    case Ran(_) => assert next == Pending;
    case Got(_) => assert Rest(next, x) == Rest(Ran(x), x);
    case Seen => assert Rest(next, x) == Rest(Got(0), x);
    case Top => assert next == Seen;
    case Acking(_) => assert next == Top;
  }

  /**
   * A second command raised while the first one is not acknowledged: where the server stands at that
   * moment decides whether it is run.
   */
  lemma SecondIsRunExactly(s: System, c: Command, x: string)
    requires s.client == Raising && Holds(s.mem, c) && s.mem.rdy == Raised(s.mem.ack)
    requires s.server.Acking? ==> s.server.count == s.mem.rdy
    ensures Runs(s, [Raise] + Rest(s.server, x))
    ensures var t := Run(s, [Raise] + Rest(s.server, x));
            && t.server == Top && t.mem.rdy == t.mem.ack && t.client == Waiting
            && (t.ran == s.ran + [c]
                <==> !s.server.Ran? && s.server != Pending && (s.server.Got? ==> s.server.kind == c.kind))
  {
    hide Run, Runs;
    var u := Next(s, Raise);
    ServerFinishes(u, x);
    RunOne(s, Raise, Rest(u.server, x));
    RunByExactly(s.ran, u, c);
  }

  lemma RunByExactly(ran: seq<Command>, u: System, c: Command)
    requires Holds(u.mem, c)
    ensures ran + RunBy(u) == ran + [c]
            <==> !u.server.Ran? && u.server != Pending && (u.server.Got? ==> u.server.kind == c.kind)
  {
    assert RunBy(u) == (ran + RunBy(u))[|ran|..] && [c] == (ran + [c])[|ran|..];
  }

  /** The server has run the command it fetched, and has not acknowledged it. */
  predicate HasRun(server: Server) {
    server.Ran? || server == Pending || server.Acking?
  }

  /** The latest command raised is not acknowledged; those in `done` were run before it. */
  predicate Open(s: System, done: seq<Command>) {
    && s.mem.rdy == Raised(s.mem.ack) && (s.server.Acking? ==> s.server.count == s.mem.rdy)
    && done <= s.ran && |s.ran| == |done| + if HasRun(s.server) then 1 else 0
  }

  lemma OpenStep(s: System, a: Action, done: seq<Command>)
    requires Enabled(s, a) && a != Raise && a != Acknowledge && Open(s, done)
    ensures Open(Next(s, a), done)
  {
  }

  lemma {:induction false} RunOpen(s: System, acts: seq<Action>, done: seq<Command>)
    requires Runs(s, acts) && Raise !in acts && Acknowledge !in acts && Open(s, done)
    ensures Open(Run(s, acts), done)
    decreases |acts|
  {
    hide Open, Next, Enabled;
    if acts != [] {
      OpenStep(s, acts[0], done);
      RunOpen(Next(s, acts[0]), acts[1..], done);
    }
  }

  /**
   * A client that gives up on a command and raises another one before the first is acknowledged, whatever
   * the server does meanwhile: both are run exactly when the server is about to acknowledge by then, and
   * both as they were sent exactly when it has also run the first one as it was sent.
   */
  lemma BothAreRunExactly(s0: System, acts: seq<Action>, c: Command, x: string)
    requires InFlight(s0) && s0.client == Waiting && Runs(s0, acts) && Raise !in acts && Acknowledge !in acts
    requires Run(s0, acts).client == Raising && Holds(Run(s0, acts).mem, c)
    ensures var s := Run(s0, acts);
            && Runs(s, [Raise] + Rest(s.server, x))
            && var t := Run(s, [Raise] + Rest(s.server, x));
               && (|t.ran| == |s0.sent| + 1 <==> s.server.Acking?)
               && (t.ran == s0.sent + [c] <==> s.server.Acking? && s.ran == s0.sent)
  {
    hide Run, Runs;
    var s := Run(s0, acts);
    OpenAtFirst(s0);
    RunOpen(s0, acts, s0.sent[..|s0.sent| - 1]);
    var u := Next(s, Raise);
    ServerFinishes(u, x);
    RunOne(s, Raise, Rest(u.server, x));
    SameFront(s.ran, s0.sent, c);
    assert Holds(u.mem, c);
  }

  lemma OpenAtFirst(s: System)
    requires InFlight(s)
    ensures Open(s, s.sent[..|s.sent| - 1])
  {
  }

  lemma SameFront(ran: seq<Command>, sent: seq<Command>, c: Command)
    ensures ran + [c] == sent + [c] <==> ran == sent
  {
    assert ran == (ran + [c])[..|ran + [c]| - 1] && sent == (sent + [c])[..|sent + [c]| - 1];
  }

  lemma Extend(s: System, acts: seq<Action>, t: System, a: Action) returns (more: seq<Action>)
    requires Runs(s, acts) && Run(s, acts) == t && Enabled(t, a)
    ensures more == acts + [a] && Runs(s, more) && Run(s, more) == Next(t, a)
  {
    hide Enabled, Next;
    more := acts + [a];
    EmptyRun(Next(t, a));
    RunOne(t, a, []);
    assert [a] + [] == [a];
    Chain(s, acts, [a]);
  }

  lemma {:induction false} Chain(s: System, a: seq<Action>, b: seq<Action>)
    requires Runs(s, a) && Runs(Run(s, a), b)
    ensures Runs(s, a + b) && Run(s, a + b) == Run(Run(s, a), b)
    decreases |a|
  {
    hide Next, Enabled;
    if a == [] {
      assert a + b == b;
    } else {
      assert (a + b)[1..] == a[1..] + b;
      Chain(Next(s, a[0]), a[1..], b);
    }
  }

  /** A first command is sent, fetched and run, and its result set. */
  function UntilPending(r: Request, x: string): seq<Action> {
    [Send(r), StoreA, StoreB, ClearError, StoreKind, Raise, Look, Fetch, Execute(x), Publish]
  }

  lemma PendingReached(r: Request, x: string)
    ensures Runs(START, UntilPending(r, x))
    ensures var t := Run(START, UntilPending(r, x));
            && t.client == Waiting && t.server == Pending
            && t.sent == [Meant(CLEARED, r)] && t.ran == [Meant(CLEARED, r)]
  {
    hide Run, Runs;
    var acts := UntilPending(r, x);
    var s1 := Next(START, acts[0]);
    var s2 := Next(s1, acts[1]);
    var s3 := Next(s2, acts[2]);
    var s4 := Next(s3, acts[3]);
    var s5 := Next(s4, acts[4]);
    var s6 := Next(s5, acts[5]);
    var s7 := Next(s6, acts[6]);
    var s8 := Next(s7, acts[7]);
    var s9 := Next(s8, acts[8]);
    EmptyRun(START);
    var r1 := Extend(START, [], START, acts[0]);
    var r2 := Extend(START, r1, s1, acts[1]);
    var r3 := Extend(START, r2, s2, acts[2]);
    var r4 := Extend(START, r3, s3, acts[3]);
    var r5 := Extend(START, r4, s4, acts[4]);
    var r6 := Extend(START, r5, s5, acts[5]);
    var r7 := Extend(START, r6, s6, acts[6]);
    var r8 := Extend(START, r7, s7, acts[7]);
    var r9 := Extend(START, r8, s8, acts[8]);
    var r10 := Extend(START, r9, s9, acts[9]);
    assert r10 == acts;
  }

  /** From the beginning: two commands are sent, one is run, and nothing is left to do. */
  lemma LostFromStart(r: Request, x: string, r2: Request)
    ensures Runs(START, UntilPending(r, x) + Overtaking(r2))
    ensures var t := Run(START, UntilPending(r, x) + Overtaking(r2));
            && |t.sent| == 2 && |t.ran| == 1 && t.client == Waiting && t.server == Top && t.mem.rdy == t.mem.ack
  {
    hide Overtaking, UntilPending, Run, Runs;
    PendingReached(r, x);
    var s := Run(START, UntilPending(r, x));
    GivingUpLosesTheNext(s, r2);
    Chain(START, UntilPending(r, x), Overtaking(r2));
  }
}
