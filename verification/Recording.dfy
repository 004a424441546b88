/**
 * The receive thread, the data thread, the threads that ask for XML records and the thread
 * that opens and closes files, in any interleaving of their steps. Enabling the write buffer takes
 * no mutex and comes before the threads are started.
 */
module Recording {
  import opened Words
  import opened DataFormat
  import opened DataFile
  import opened FileLog

  type Frame = seq<Word>

  /** The holder of the request mutex inside `addConfig`, `addStatus` or `addRun...`. */
  datatype Caller =
    | NoCaller
    | Locked(kind: XmlKind, text: seq<Byte>)
    | EntrySet(kind: XmlKind, text: seq<Byte>)
    | KindSet(kind: XmlKind, text: seq<Byte>)
    | Snapped(kind: XmlKind, text: seq<Byte>, currResp: Word)
    | Waiting(kind: XmlKind, text: seq<Byte>, currResp: Word)

  /** Where the data thread stands in its loop. */
  datatype DataPc =
    | Top
    | XmlTest
    | XmlSized(tagKind: XmlKind, size: nat)
    | XmlDone
    | XmlAck
    | Queue
    | Write(frame: Frame)

  datatype System = System(
    file: FileState,
    running: bool,            // the receive and data threads have been started
    capacity: nat,            // of the data queue
    queue: seq<Frame>,
    holding: seq<Frame>,      // the frame the receive thread is pushing, if any
    entry: seq<Byte>,         // xmlReqEntry_
    kind: XmlKind,            // xmlType_
    reqCnt: Word,             // xmlReqCnt_
    respCnt: Word,            // xmlRespCnt_
    xmlCount: Word,           // the data thread's copy of xmlReqCnt_
    storeEn: bool,            // xmlStoreEn_
    caller: Caller,
    pc: DataPc
  )

  predicate Initial(s: System) {
    && s.file == INITIAL && !s.running && s.queue == [] && s.holding == []
    && s.xmlCount == s.reqCnt && s.caller == NoCaller && s.pc == Top
  }

  datatype Action =
    | Start
    | Receive(frame: Frame)
    | Push
    | Acquire(kind: XmlKind, text: seq<Byte>)
    | SetEntry
    | SetKind
    | Snapshot
    | Bump
    | Return
    | Data(ok: bool)
    | File(op: Op)
    | SetXmlStore(enable: bool)

  function Slice(bs: seq<Byte>, n: nat): seq<Byte> {
    if n <= |bs| then bs[..n] else bs
  }

  predicate WriteFits(s: FileState, payload: seq<Byte>) {
    s.Fits(4) && s.Fits(|payload|)
  }

  predicate Enabled(s: System, a: Action) {
    s.file.Valid() &&
    match a
    case Start => !s.running
    case Receive(_) => s.running && s.holding == []
    case Push => s.holding != [] && |s.queue| < s.capacity
    case Acquire(_, _) => s.caller.NoCaller?
    case SetEntry => s.caller.Locked?
    case SetKind => s.caller.EntrySet?
    case Snapshot => s.caller.KindSet?
    case Bump => s.caller.Snapped?
    case Return => s.caller.Waiting? && s.caller.currResp != s.respCnt
    case Data(_) =>
      && s.running
      && (s.pc.XmlSized? ==> WriteFits(s.file, Slice(s.entry, s.pc.size)))
      && (s.pc.Write? ==> WriteFits(s.file, Payload(Raw(s.pc.frame))))
    case File(op) => !op.Write? && (op.EnableBuffer? ==> !s.running)
    case SetXmlStore(_) => true
  }

  /** One pass of the data thread from one shared access to the next. */
  function DataStep(s: System, ok: bool): System
    requires Enabled(s, Data(ok))
  {
    match s.pc
    case Top => s.(pc := if s.xmlCount != s.reqCnt then XmlTest else Queue)
    case XmlTest => s.(pc := if s.storeEn then XmlSized(s.kind, |s.entry| % TWO_28) else XmlDone)
    case XmlSized(k, n) =>
      s.(file := WriteTagged(s.file, TWO_28 * k + n % TWO_28, Slice(s.entry, n), ok), pc := XmlDone)
    case XmlDone => s.(xmlCount := s.reqCnt, pc := XmlAck)
    case XmlAck => s.(respCnt := Wrap(s.respCnt + 1), pc := Queue)
    case Queue =>
      if s.queue == [] then s.(pc := Top)
      else s.(pc := DataPc.Write(s.queue[0]), queue := s.queue[1..])
    case Write(f) =>
      var r := Raw(f);
      s.(file := WriteTagged(s.file, Tag(r), Payload(r), ok), pc := Top)
  }

  function Next(s: System, a: Action): System
    requires Enabled(s, a)
  {
    match a
    case Start => s.(running := true)
    case Receive(f) => s.(holding := [f])
    case Push => s.(queue := s.queue + s.holding, holding := [])
    case Acquire(k, t) => s.(caller := Locked(k, t))
    case SetEntry => s.(entry := s.caller.text, caller := EntrySet(s.caller.kind, s.caller.text))
    case SetKind => s.(kind := s.caller.kind, caller := KindSet(s.caller.kind, s.caller.text))
    case Snapshot => s.(caller := Snapped(s.caller.kind, s.caller.text, s.respCnt))
    case Bump =>
      s.(reqCnt := Wrap(s.reqCnt + 1), caller := Waiting(s.caller.kind, s.caller.text, s.caller.currResp))
    case Return => s.(caller := NoCaller)
    case Data(ok) => DataStep(s, ok)
    case File(op) => s.(file := Apply(s.file, op))
    case SetXmlStore(enable) => s.(storeEn := enable)
  }

  /** The guards of the recording file, for the step about to be taken. */
  predicate Guarded(s: System, a: Action) {
    match a
    case Data(ok) =>
      && (s.pc.XmlSized? ==> KeepsStream(s.file, Op.Write(Xml(s.pc.tagKind, s.entry), ok)))
      && (s.pc.Write? ==> KeepsStream(s.file, Op.Write(Raw(s.pc.frame), ok)))
    case File(op) => KeepsStream(s.file, op)
    case _ => true
  }

  /* ----- What ought to be recorded ----- */

  /**
   * A bystander's notes of a run. They are taken from the actions, from where the data thread is when it acts,
   * and from the two switches a record depends on: whether XML is stored, and whether a file is open.
   */
  datatype Book = Book(
    arrived: seq<Frame>,      // every frame received
    asked: seq<Record>,       // every call, in the order it took the mutex
    returned: nat,            // how many calls have returned
    handled: seq<Frame>,      // frames that have gone through the data thread
    decided: nat,             // how many calls the data thread has looked at
    owed: seq<Record>,        // the record it has decided to store with its next step
    due: seq<Record>          // the records that belong into the stream
  )

  const EMPTY := Book([], [], 0, [], 0, [], [])

  /** Frames between the link and the file, oldest first. */
  function OnTheWay(s: System): seq<Frame> {
    InHand(s.pc) + s.queue + s.holding
  }

  function InHand(pc: DataPc): seq<Frame> {
    if pc.Write? then [pc.frame] else []
  }

  /** The oldest frames, as many as there are fewer on the way. */
  function Passed(s: System, t: System): seq<Frame> {
    var n := |OnTheWay(s)| - |OnTheWay(t)|;
    if n > 0 then OnTheWay(s)[..n] else []
  }

  function Raws(fs: seq<Frame>): seq<Record> {
    seq(|fs|, i requires 0 <= i < |fs| => Raw(fs[i]))
  }

  /** A file is open for the next record. */
  predicate Takes(f: FileState, ok: bool) {
    f.fd != NO_FILE && (f.Rotates() ==> ok)
  }

  function Noted(b: Book, s: System, a: Action, t: System): Book {
    match a
    case Receive(f) => b.(arrived := b.arrived + [f])
    case Acquire(k, text) => b.(asked := b.asked + [Xml(k, text)])
    case Return => b.(returned := b.returned + 1)
    case Data(ok) =>
      b.(handled := b.handled + Passed(s, t),
         decided := b.decided + (if s.pc == XmlTest then 1 else 0),
         owed := if s.pc == XmlTest && s.storeEn && b.decided < |b.asked| then [b.asked[b.decided]] else [],
         due := b.due + if Takes(s.file, ok) then b.owed + Raws(Passed(s, t)) else [])
    case _ => b
  }

  predicate InXml(pc: DataPc) {
    pc.XmlTest? || pc.XmlSized? || pc.XmlDone? || pc.XmlAck?
  }

  /* ----- The invariant ----- */

  /** Every frame that arrived has been handled or is on the way, in order of arrival. */
  predicate FramesKept(s: System, b: Book) {
    && |s.queue| <= s.capacity && |s.holding| <= 1
    && b.handled + OnTheWay(s) == b.arrived
  }

  predicate StreamKept(s: System, b: Book) {
    s.file.Valid() && Stream(s.file) == EncodeAll(b.due)
  }

  /** No request is out: the data thread has caught up with the counter. */
  predicate Settled(s: System) {
    s.xmlCount == s.reqCnt && !InXml(s.pc)
  }

  /** The mutex is taken for a call the data thread has not looked at. */
  predicate Undecided(b: Book, k: XmlKind, t: seq<Byte>) {
    |b.asked| == b.decided + 1 && b.asked[b.decided] == Xml(k, t) && b.owed == []
  }

  predicate CallKept(s: System, b: Book) {
    match s.caller
    case NoCaller =>
      Settled(s) && b.decided == |b.asked| == b.returned && b.owed == []
    case Waiting(k, t, resp) =>
      && s.kind == k && s.entry == t && |b.asked| == b.returned + 1 && b.asked[b.returned] == Xml(k, t)
      && if s.respCnt == resp then
           match s.pc
           case XmlSized(tagKind, size) =>
             && tagKind == k && size == |t| % TWO_28
             && b.decided == |b.asked| && b.owed == [Xml(k, t)] && s.reqCnt == Wrap(s.xmlCount + 1)
           case XmlDone => b.decided == |b.asked| && b.owed == [] && s.reqCnt == Wrap(s.xmlCount + 1)
           case XmlAck => b.decided == |b.asked| && b.owed == [] && s.reqCnt == s.xmlCount
           case _ => Undecided(b, k, t) && s.reqCnt == Wrap(s.xmlCount + 1)
         else
           Settled(s) && s.respCnt == Wrap(resp + 1) && b.decided == |b.asked| && b.owed == []
    case Locked(k, t) => CallPending(s, b, k, t)
    case EntrySet(k, t) => CallPending(s, b, k, t) && s.entry == t
    case KindSet(k, t) => CallPending(s, b, k, t) && s.entry == t && s.kind == k
    case Snapped(k, t, resp) => CallPending(s, b, k, t) && s.entry == t && s.kind == k && resp == s.respCnt
  }

  /** The call has not been announced to the data thread yet. */
  predicate CallPending(s: System, b: Book, k: XmlKind, t: seq<Byte>) {
    Settled(s) && Undecided(b, k, t) && |b.asked| == b.returned + 1
  }

  predicate Inv(s: System, b: Book) {
    FramesKept(s, b) && StreamKept(s, b) && CallKept(s, b)
  }

  /** What a step of the data thread does to the frames on the way. */
  lemma PassedStep(s: System, ok: bool)
    requires Enabled(s, Data(ok))
    ensures var t := DataStep(s, ok);
            && OnTheWay(s) == Passed(s, t) + OnTheWay(t)
            && Passed(s, t) == if s.pc.Write? then [s.pc.frame] else []
  {
    hide DataStep;
    var t := DataStep(s, ok);
    DataMoves(s, ok);
    if s.pc.Queue? && s.queue != [] {
      TakenUp(s.queue, s.holding);
    } else if s.pc.Write? {
      FirstPassed(s.pc.frame, s.queue, s.holding);
    }
  }

  lemma TakenUp(queue: seq<Frame>, holding: seq<Frame>)
    requires queue != []
    ensures [queue[0]] + queue[1..] + holding == [] + queue + holding
  {
  }

  lemma FirstPassed(f: Frame, queue: seq<Frame>, holding: seq<Frame>)
    ensures [f] + queue + holding == [f] + ([] + queue + holding)
    ensures ([f] + queue + holding)[..1] == [f]
  {
  }

  /** The queue is popped into the hand, and a hand is emptied. */
  lemma DataMoves(s: System, ok: bool)
    requires Enabled(s, Data(ok))
    ensures var t := DataStep(s, ok);
            && t.holding == s.holding
            && t.queue == (if s.pc.Queue? && s.queue != [] then s.queue[1..] else s.queue)
            && InHand(t.pc) == if s.pc.Queue? && s.queue != [] then [s.queue[0]] else []
    ensures !s.pc.Write? ==> InHand(s.pc) == []
  {
    hide WriteTagged, Payload, Tag, Slice;
  }

  lemma DataKeepsRoom(s: System, ok: bool)
    requires Enabled(s, Data(ok))
    ensures var t := DataStep(s, ok); |t.queue| <= |s.queue| && t.holding == s.holding && t.capacity == s.capacity
  {
    hide WriteTagged, Payload, Tag, Slice;
  }

  lemma FramesStep(s: System, b: Book, a: Action)
    requires Enabled(s, a) && FramesKept(s, b)
    ensures FramesKept(Next(s, a), Noted(b, s, a, Next(s, a)))
  {
    hide DataStep, Apply, Passed, Takes, Raws, OnTheWay;
    var t := Next(s, a);
    match a
    case Data(ok) =>
      PassedStep(s, ok);
      DataKeepsRoom(s, ok);
      Associate(b.handled, Passed(s, t), OnTheWay(t));
    case Receive(f) =>
      OneBehind(s, f);
      Associate(b.handled, OnTheWay(s), [f]);
    case Push => MovedOn(s);
    case _ => SameWay(s, t);
  }

  lemma Associate(a: seq<Frame>, b: seq<Frame>, c: seq<Frame>)
    ensures a + (b + c) == (a + b) + c
  {
  }

  lemma OneBehind(s: System, f: Frame)
    requires s.holding == []
    ensures OnTheWay(s.(holding := [f])) == OnTheWay(s) + [f]
  {
  }

  lemma MovedOn(s: System)
    ensures OnTheWay(s.(queue := s.queue + s.holding, holding := [])) == OnTheWay(s)
  {
  }

  lemma SameWay(s: System, t: System)
    requires t.pc == s.pc && t.queue == s.queue && t.holding == s.holding
    ensures OnTheWay(t) == OnTheWay(s)
  {
  }

  /** A step stores what is due, if that is what it writes. */
  lemma StreamStep(s: System, b: Book, a: Action)
    requires Enabled(s, a) && StreamKept(s, b) && CallKept(s, b) && Guarded(s, a)
    ensures StreamKept(Next(s, a), Noted(b, s, a, Next(s, a)))
  {
    hide EncodeAll, Stream, WriteTagged, CallKept;
    match a
    case Data(ok) =>
      PassedStep(s, ok);
      NothingOwed(s, b);
      match s.pc {
        case XmlSized(_, _) =>
          SizedPayload(s, b);
          StoreStep(s, b, a, b.owed[0]);
        case Write(f) => StoreStep(s, b, a, Raw(f));
        case _ => NothingDue(b, s, a);
      }
    case File(op) =>
      StepStream(s.file, op);
      NothingAdded(s.file, op);
    case _ =>
  }

  lemma NothingDue(b: Book, s: System, a: Action)
    requires Enabled(s, a) && a.Data? && b.owed == [] && Passed(s, Next(s, a)) == []
    ensures Noted(b, s, a, Next(s, a)).due == b.due
  {
    hide DataStep, Passed;
    assert Raws([]) == [] && b.due + [] == b.due;
  }

  lemma NothingOwed(s: System, b: Book)
    requires CallKept(s, b)
    ensures !s.pc.XmlSized? ==> b.owed == []
  {
  }

  lemma NothingAdded(f: FileState, op: Op)
    requires !op.Write?
    ensures Stream(f) + EncodeAll(Accepted(f, op)) == Stream(f)
  {
  }

  /** The entry still is what its tag was computed from. */
  lemma SizedPayload(s: System, b: Book)
    requires CallKept(s, b) && s.pc.XmlSized?
    ensures var r := Xml(s.pc.tagKind, s.entry);
            && Slice(s.entry, s.pc.size) == Payload(r)
            && TWO_28 * s.pc.tagKind + s.pc.size % TWO_28 == Tag(r)
            && b.owed == [r]
  {
  }

  lemma StoreStep(s: System, b: Book, a: Action, r: Record)
    requires Enabled(s, a) && StreamKept(s, b) && a.Data?
    requires WriteFits(s.file, Payload(r)) && KeepsStream(s.file, Op.Write(r, a.ok))
    requires Next(s, a).file == Apply(s.file, Op.Write(r, a.ok))
    requires b.owed + Raws(Passed(s, Next(s, a))) == [r]
    ensures StreamKept(Next(s, a), Noted(b, s, a, Next(s, a)))
  {
    var got := Accepted(s.file, Op.Write(r, a.ok));
    assert got == if Takes(s.file, a.ok) then [r] else [];
    StepStream(s.file, Op.Write(r, a.ok));
    EncodeAllConcat(b.due, got);
  }

  lemma CallStep(s: System, b: Book, a: Action)
    requires Enabled(s, a) && CallKept(s, b)
    ensures CallKept(Next(s, a), Noted(b, s, a, Next(s, a)))
  {
    hide DataStep, CallKept, Enabled;
    match a
    case Data(ok) => CallDataStep(s, b, ok);
    case _ => CallOtherStep(s, b, a);
  }

  lemma CallDataStep(s: System, b: Book, ok: bool)
    requires Enabled(s, Data(ok)) && CallKept(s, b)
    ensures CallKept(DataStep(s, ok), Noted(b, s, Data(ok), DataStep(s, ok)))
  {
    hide DataStep, CallKept, Noted;
    if InXml(s.pc) { CallXmlStep(s, b, ok); } else { CallFrameStep(s, b, ok); }
  }

  lemma CallXmlStep(s: System, b: Book, ok: bool)
    requires Enabled(s, Data(ok)) && CallKept(s, b) && InXml(s.pc)
    ensures CallKept(DataStep(s, ok), Noted(b, s, Data(ok), DataStep(s, ok)))
  {
    hide WriteTagged, Payload, Tag, Slice, OnTheWay, Takes, Raws, Passed, WriteFits;
  }

  lemma CallFrameStep(s: System, b: Book, ok: bool)
    requires Enabled(s, Data(ok)) && CallKept(s, b) && !InXml(s.pc)
    ensures CallKept(DataStep(s, ok), Noted(b, s, Data(ok), DataStep(s, ok)))
  {
    hide WriteTagged, Payload, Tag, Slice, OnTheWay, Takes, Raws, Passed, WriteFits;
  }

  lemma CallOtherStep(s: System, b: Book, a: Action)
    requires Enabled(s, a) && !a.Data? && CallKept(s, b)
    ensures CallKept(Next(s, a), Noted(b, s, a, Next(s, a)))
  {
    hide OnTheWay, Takes, Raws, Passed, Apply;
  }

  /* ----- Runs ----- */

  /** A run is a list of enabled steps, each within the guards of the recording file. */
  predicate Runs(s: System, acts: seq<Action>)
    decreases |acts|
  {
    acts == [] || (Enabled(s, acts[0]) && Guarded(s, acts[0]) && Runs(Next(s, acts[0]), acts[1..]))
  }

  function Run(s: System, acts: seq<Action>): System
    requires Runs(s, acts)
    decreases |acts|
  {
    if acts == [] then s else Run(Next(s, acts[0]), acts[1..])
  }

  function Booked(s: System, b: Book, acts: seq<Action>): Book
    requires Runs(s, acts)
    decreases |acts|
  {
    if acts == [] then b
    else Booked(Next(s, acts[0]), Noted(b, s, acts[0], Next(s, acts[0])), acts[1..])
  }

  lemma {:induction false} RunKeepsInv(s: System, b: Book, acts: seq<Action>)
    requires Inv(s, b) && Runs(s, acts)
    ensures Inv(Run(s, acts), Booked(s, b, acts))
    decreases |acts|
  {
    hide Inv, Next, Enabled, Guarded, Noted;
    if acts != [] {
      InvStep(s, b, acts[0]);
      RunKeepsInv(Next(s, acts[0]), Noted(b, s, acts[0], Next(s, acts[0])), acts[1..]);
    }
  }

  lemma InitialInv(s: System)
    requires Initial(s)
    ensures Inv(s, EMPTY)
  {
    assert Stream(INITIAL) == [];
  }

  /**
   * The files and the write buffer decode to the records that are due: every frame handled while a file was
   * open, and every call's text that was looked at while XML was stored and dealt with while a file was open,
   * in this order. Frames are neither lost, doubled nor reordered before that.
   */
  lemma NothingLost(s: System, acts: seq<Action>)
    requires Initial(s) && Runs(s, acts)
    ensures var t, b := Run(s, acts), Booked(s, EMPTY, acts);
            && t.file.Valid() && Stream(t.file) == EncodeAll(b.due)
            && ((forall r :: r in b.due ==> WellSized(r)) ==> Decode(Stream(t.file)) == Parsed(b.due, []))
            && b.handled + OnTheWay(t) == b.arrived
  {
    InitialInv(s);
    RunKeepsInv(s, EMPTY, acts);
    var rs := Booked(s, EMPTY, acts).due;
    if forall r :: r in rs ==> WellSized(r) {
      DecodePrefix(rs, |EncodeAll(rs)|);
      assert EncodeAll(rs)[..|EncodeAll(rs)|] == EncodeAll(rs);
    }
  }

  /** Each call is looked at once, in call order, before it returns, and none is left undone then. */
  lemma CallsHandledOnce(s: System, acts: seq<Action>)
    requires Initial(s) && Runs(s, acts)
    ensures var b := Booked(s, EMPTY, acts);
            && b.returned <= b.decided <= |b.asked| <= b.returned + 1
            && (b.decided == b.returned ==> b.owed == [])
            && (b.owed != [] ==> b.owed == [b.asked[b.decided - 1]])
  {
    InitialInv(s);
    RunKeepsInv(s, EMPTY, acts);
    OneOutstanding(Run(s, acts), Booked(s, EMPTY, acts));
  }

  lemma OneOutstanding(t: System, b: Book)
    requires CallKept(t, b)
    ensures b.returned <= b.decided <= |b.asked| <= b.returned + 1
    ensures b.decided == b.returned ==> b.owed == []
    ensures b.owed != [] ==> b.owed == [b.asked[b.decided - 1]]
  {
  }

  /* ----- Nothing waits for ever ----- */

  function DataSteps(acts: seq<Action>): nat
    decreases |acts|
  {
    if acts == [] then 0 else DataSteps(acts[1..]) + if acts[0].Data? then 1 else 0
  }

  /** How many steps the data thread is away from handing on a frame that is there. */
  function ToFrame(pc: DataPc): nat {
    match pc
    case Top => 7
    case XmlTest => 6
    case XmlSized(_, _) => 5
    case XmlDone => 4
    case XmlAck => 3
    case Queue => 2
    case Write(_) => 1
  }

  lemma NearerFrame(s: System, a: Action)
    requires Enabled(s, a) && InHand(s.pc) + s.queue != [] && !(a.Data? && s.pc.Write?)
    ensures var t := Next(s, a);
            && InHand(t.pc) + t.queue != []
            && ToFrame(t.pc) + (if a.Data? then 1 else 0) <= ToFrame(s.pc)
  {
    hide WriteTagged, Payload, Tag, Slice, Apply;
  }

  /** Handled frames stay handled. */
  lemma {:induction false} HandledStay(s: System, b: Book, acts: seq<Action>)
    requires Runs(s, acts)
    ensures b.handled <= Booked(s, b, acts).handled
    decreases |acts|
  {
    hide Next, Enabled, Guarded;
    if acts != [] { HandledStay(Next(s, acts[0]), Noted(b, s, acts[0], Next(s, acts[0])), acts[1..]); }
  }

  lemma NotHandedBack(s: System, b: Book, a: Action)
    requires Enabled(s, a)
    ensures b.handled <= Noted(b, s, a, Next(s, a)).handled
  {
    hide Passed, Next;
  }

  lemma HandedOn(s: System, b: Book, a: Action)
    requires Enabled(s, a) && a.Data? && s.pc.Write?
    ensures Noted(b, s, a, Next(s, a)).handled == b.handled + [s.pc.frame]
  {
    hide Passed, OnTheWay, Takes, Raws, DataStep;
    PassedStep(s, a.ok);
  }

  lemma {:induction false} FrameIsHandled(s: System, b: Book, acts: seq<Action>)
    requires Runs(s, acts) && InHand(s.pc) + s.queue != [] && DataSteps(acts) >= ToFrame(s.pc)
    ensures |Booked(s, b, acts).handled| > |b.handled|
    decreases |acts|
  {
    hide Next, Enabled, Guarded, Noted;
    var a, t := acts[0], Next(s, acts[0]);
    if a.Data? && s.pc.Write? {
      HandedOn(s, b, a);
      HandledStay(t, Noted(b, s, a, t), acts[1..]);
    } else {
      NearerFrame(s, a);
      NotHandedBack(s, b, a);
      FrameIsHandled(t, Noted(b, s, a, t), acts[1..]);
    }
  }

  /** A frame that is queued or in hand: within any seven steps of the data thread one is handed on. */
  lemma FrameWithinSeven(s: System, b: Book, acts: seq<Action>)
    requires Runs(s, acts) && InHand(s.pc) + s.queue != [] && DataSteps(acts) >= 7
    ensures |Booked(s, b, acts).handled| > |b.handled|
  {
    FrameIsHandled(s, b, acts);
  }

  /** How many steps the data thread is away from the answer to a call that waits for it. */
  function ToAnswer(pc: DataPc): nat {
    match pc
    case Queue => 7
    case Write(_) => 6
    case Top => 5
    case XmlTest => 4
    case XmlSized(_, _) => 3
    case XmlDone => 2
    case XmlAck => 1
  }

  predicate Unanswered(s: System) {
    s.caller.Waiting? && s.respCnt == s.caller.currResp
  }

  lemma NearerAnswer(s: System, b: Book, a: Action)
    requires Enabled(s, a) && CallKept(s, b) && Unanswered(s)
    ensures var t := Next(s, a);
            && t.caller == s.caller
            && (Unanswered(t) ==> ToAnswer(t.pc) + (if a.Data? then 1 else 0) <= ToAnswer(s.pc))
            && (a.Data? && ToAnswer(s.pc) == 1 ==> !Unanswered(t))
  {
    hide WriteTagged, Payload, Tag, Slice, Apply;
  }

  lemma {:induction false} CallIsAnswered(s: System, b: Book, acts: seq<Action>)
    requires Inv(s, b) && Runs(s, acts) && Unanswered(s) && DataSteps(acts) >= ToAnswer(s.pc)
    ensures exists n :: 0 <= n <= |acts| && Runs(s, acts[..n]) && Answered(s, Run(s, acts[..n]))
    decreases |acts|
  {
    hide Inv, CallKept, Next, Enabled, Guarded;
    var a, t := acts[0], Next(s, acts[0]);
    InvCall(s, b);
    NearerAnswer(s, b, a);
    assert [a] + [] == [a] && acts[..1] == [a];
    OneMore(s, a, []);
    if Unanswered(t) {
      var b2 := Noted(b, s, a, t);
      InvStep(s, b, a);
      CallIsAnswered(t, b2, acts[1..]);
      var n :| 0 <= n <= |acts| - 1 && Runs(t, acts[1..][..n]) && Answered(t, Run(t, acts[1..][..n]));
      OneMore(s, a, acts[1..][..n]);
      assert acts[..n + 1] == [a] + acts[1..][..n];
    } else {
      assert Runs(s, acts[..1]) && Answered(s, Run(s, acts[..1]));
    }
  }

  /** The caller of `s` still waits in `t`, and its call can return. */
  predicate Answered(s: System, t: System) {
    t.caller == s.caller && t.caller.Waiting? && t.caller.currResp != t.respCnt
  }

  lemma OneMore(s: System, a: Action, rest: seq<Action>)
    requires Enabled(s, a) && Guarded(s, a) && Runs(Next(s, a), rest)
    ensures Runs(s, [a] + rest) && Run(s, [a] + rest) == Run(Next(s, a), rest)
  {
    hide Enabled, Next, Guarded;
    assert ([a] + rest)[1..] == rest;
  }

  lemma InvCall(s: System, b: Book)
    requires Inv(s, b)
    ensures CallKept(s, b)
  {
  }

  lemma InvStep(s: System, b: Book, a: Action)
    requires Inv(s, b) && Enabled(s, a) && Guarded(s, a)
    ensures Inv(Next(s, a), Noted(b, s, a, Next(s, a)))
  {
    hide FramesKept, StreamKept, CallKept, Next, Enabled, Guarded, Noted;
    FramesStep(s, b, a);
    StreamStep(s, b, a);
    CallStep(s, b, a);
  }

  /** A call that waits: in any run with seven steps of the data thread there is a point where it can return. */
  lemma AnswerWithinSeven(s: System, b: Book, acts: seq<Action>)
    requires Inv(s, b) && Runs(s, acts) && Unanswered(s) && DataSteps(acts) >= 7
    ensures exists n :: 0 <= n <= |acts| && Runs(s, acts[..n]) && Answered(s, Run(s, acts[..n]))
  {
    hide Inv, Runs, Run, DataSteps, Answered, Unanswered;
    CallIsAnswered(s, b, acts);
  }
}
