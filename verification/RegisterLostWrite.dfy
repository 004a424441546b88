/** A run in which a waited write returns although its words were never sent, and no call fails on the way. */
module RegisterLostWrite {
  import opened Options
  import opened Words
  import opened RegisterProtocol
  import opened RegisterRuns

  const BUFFER: seq<Word> := [0, 0, 0, 0, 0, 0, 0, 0]
  const HEARD: seq<Word> := [9, 0, 0, 0, 0, 0, 0, 0]
  const HARDWARE: map<Word, seq<Word>> := map[0 := [9], 1 := [5]]

  /** A register that is read, and one that is to be written with 7. */
  function Pair(words: seq<Word>): map<nat, Register> {
    map[0 := Register(0, words, 0), 1 := Register(1, [7], 0)]
  }

  const ASKED1 := Request(1, 0, false, [])
  const ASKED2 := Request(2, 0, false, [])
  const TOLD1 := Response(1, 0, 0, [9])
  const TOLD2 := Response(2, 0, 0, [9])

  function Start(): (s: System)
    ensures Initial(s)
  {
    System(Pair([0]), 8, Call(0, false, true, 0, 0, Idle, Returned, 0, false, false), Io(Resting, 0, []),
           Net({}, {}, HARDWARE, []), Rx(Listening, BUFFER, 0, None))
  }

  /** A read is issued. */
  const ASKING: seq<Action> := [
    Requesting(Begin(0, false, true)), Requesting(SetWrite), Requesting(Snapshot), ADVANCE]

  function Asked(): System {
    System(Pair([0]), 8, Call(0, false, true, 1, 1, Issued(0), Running, 0, false, false), Io(Resting, 0, []),
           Net({}, {}, HARDWARE, []), Rx(Listening, BUFFER, 0, None))
  }

  /** It is sent and answered. */
  const TELLING: seq<Action> := [
    Sending(Select), Sending(Load), Sending(Transmit), Sending(Note), Linking(Process(ASKED1, TOLD1, true))]

  function Told(): System {
    System(Pair([0]), 8, Call(0, false, true, 1, 1, Issued(0), Running, 0, false, false), Io(Resting, 1, [1]),
           Net({}, {TOLD1}, HARDWARE, [ASKED1]), Rx(Listening, BUFFER, 0, None))
  }

  /** The answer is matched. */
  const MATCHING: seq<Action> := [Receiving(Receive(TOLD1)), Receiving(CompareAddress)]

  function InHand1(): System {
    System(Pair([0]), 8, Call(0, false, true, 1, 1, Issued(0), Running, 0, false, false), Io(Resting, 1, [1]),
           Net({}, {}, HARDWARE, [ASKED1]), Rx(Matched(TOLD1), HEARD, 0, None))
  }

  /** The read times out, and is issued once more. */
  const RETRYING: seq<Action> := [Requesting(Timeout), Requesting(Snapshot), ADVANCE]

  function Retried(): System {
    System(Pair([0]), 8, Call(0, false, true, 2, 2, Issued(0), Running, 0, true, true), Io(Resting, 1, [1]),
           Net({}, {}, HARDWARE, [ASKED1]), Rx(Matched(TOLD1), HEARD, 0, None))
  }

  /** It is sent and answered again. */
  const TELLING_AGAIN: seq<Action> := [
    Sending(Select), Sending(Load), Sending(Transmit), Sending(Note), Linking(Process(ASKED2, TOLD2, true))]

  function ToldAgain(): System {
    System(Pair([0]), 8, Call(0, false, true, 2, 2, Issued(0), Running, 0, true, true), Io(Resting, 2, [1, 2]),
           Net({}, {TOLD2}, HARDWARE, [ASKED1, ASKED2]), Rx(Matched(TOLD1), HEARD, 0, None))
  }

  /** The first answer is counted. */
  const COUNTING: seq<Action> := [
    Receiving(TestWrite), Receiving(Copy), Receiving(SetStatus), Receiving(Count)]

  function Counted(): System {
    System(Pair([9]), 8, Call(0, false, true, 2, 2, Issued(0), Running, 0, true, true), Io(Resting, 2, [1, 2]),
           Net({}, {TOLD2}, HARDWARE, [ASKED1, ASKED2]), Rx(Listening, HEARD, 1, Some(TOLD1)))
  }

  /** It ends the read; the second one is matched by then. */
  const READING: seq<Action> := [
    Receiving(Receive(TOLD2)), Receiving(CompareAddress), Requesting(See), CHECK]

  function ReadDone(): System {
    System(Pair([9]), 8, Call(0, false, true, 2, 2, Idle, Returned, 0, true, true), Io(Resting, 2, [1, 2]),
           Net({}, {}, HARDWARE, [ASKED1, ASKED2]), Rx(Matched(TOLD2), HEARD, 1, Some(TOLD1)))
  }

  /** A write of the other register is issued. */
  const WRITING: seq<Action> := [
    Requesting(Begin(1, true, true)), Requesting(SetWrite), Requesting(Snapshot), ADVANCE]

  function WriteIssued(): System {
    System(Pair([9]), 8, Call(1, true, true, 1, 3, Issued(1), Running, 2, true, true), Io(Resting, 2, [1, 2]),
           Net({}, {}, HARDWARE, [ASKED1, ASKED2]), Rx(Matched(TOLD2), HEARD, 1, None))
  }

  /** The second answer ends it. */
  const ENDING: seq<Action> := [
    Receiving(TestWrite), Receiving(SetStatus), Receiving(Count), Requesting(See)]

  function WriteEnds(): System {
    System(Pair([9]), 8, Call(1, true, true, 1, 3, Answered, Running, 2, true, true), Io(Resting, 2, [1, 2]),
           Net({}, {}, HARDWARE, [ASKED1, ASKED2]), Rx(Listening, HEARD, 2, Some(TOLD2)))
  }

  lemma AskingRuns()
    ensures Runs(Start(), ASKING) && Run(Start(), ASKING) == Asked()
  {
    hide Runs, Run, NextIo, IoEnabled, NextNet, NetEnabled, FrameOf, NextRx, RxEnabled;
    EmptyRun(Start());
    var acts, t := [], Start();
    acts, t := Extend(Start(), acts, t, ASKING[0]);
    acts, t := Extend(Start(), acts, t, ASKING[1]);
    acts, t := Extend(Start(), acts, t, ASKING[2]);
    acts, t := Extend(Start(), acts, t, ASKING[3]);
    assert acts == ASKING;
  }

  lemma TellingRuns()
    ensures Runs(Asked(), TELLING) && Run(Asked(), TELLING) == Told()
  {
    hide Runs, Run, NextCall, CallEnabled, NextRx, RxEnabled;
    EmptyRun(Asked());
    var acts, t := [], Asked();
    acts, t := Extend(Asked(), acts, t, TELLING[0]);
    acts, t := Extend(Asked(), acts, t, TELLING[1]);
    acts, t := Extend(Asked(), acts, t, TELLING[2]);
    acts, t := Extend(Asked(), acts, t, TELLING[3]);
    acts, t := Extend(Asked(), acts, t, TELLING[4]);
    assert acts == TELLING;
  }

  lemma MatchingRuns()
    ensures Runs(Told(), MATCHING) && Run(Told(), MATCHING) == InHand1()
  {
    hide Runs, Run, NextIo, IoEnabled, NextNet, NetEnabled, FrameOf, NextCall, CallEnabled;
    EmptyRun(Told());
    var acts, t := [], Told();
    acts, t := Extend(Told(), acts, t, MATCHING[0]);
    acts, t := Extend(Told(), acts, t, MATCHING[1]);
    assert acts == MATCHING;
  }

  lemma RetryingRuns()
    ensures Runs(InHand1(), RETRYING) && Run(InHand1(), RETRYING) == Retried()
  {
    hide Runs, Run, NextIo, IoEnabled, NextNet, NetEnabled, FrameOf, NextRx, RxEnabled;
    EmptyRun(InHand1());
    var acts, t := [], InHand1();
    acts, t := Extend(InHand1(), acts, t, RETRYING[0]);
    acts, t := Extend(InHand1(), acts, t, RETRYING[1]);
    acts, t := Extend(InHand1(), acts, t, RETRYING[2]);
    assert acts == RETRYING;
  }

  lemma TellingAgainRuns()
    ensures Runs(Retried(), TELLING_AGAIN) && Run(Retried(), TELLING_AGAIN) == ToldAgain()
  {
    hide Runs, Run, NextCall, CallEnabled, NextRx, RxEnabled;
    EmptyRun(Retried());
    var acts, t := [], Retried();
    acts, t := Extend(Retried(), acts, t, TELLING_AGAIN[0]);
    acts, t := Extend(Retried(), acts, t, TELLING_AGAIN[1]);
    acts, t := Extend(Retried(), acts, t, TELLING_AGAIN[2]);
    acts, t := Extend(Retried(), acts, t, TELLING_AGAIN[3]);
    acts, t := Extend(Retried(), acts, t, TELLING_AGAIN[4]);
    assert t.net == ToldAgain().net;
    assert acts == TELLING_AGAIN;
  }

  lemma CountingRuns()
    ensures Runs(ToldAgain(), COUNTING) && Run(ToldAgain(), COUNTING) == Counted()
  {
    hide Runs, Run, NextIo, IoEnabled, NextNet, NetEnabled, FrameOf, NextCall, CallEnabled;
    EmptyRun(ToldAgain());
    var acts, t := [], ToldAgain();
    acts, t := Extend(ToldAgain(), acts, t, COUNTING[0]);
    acts, t := Extend(ToldAgain(), acts, t, COUNTING[1]);
    acts, t := Extend(ToldAgain(), acts, t, COUNTING[2]);
    acts, t := Extend(ToldAgain(), acts, t, COUNTING[3]);
    assert HEARD[..1] == [9] && t.regs == Pair([9]);
    assert acts == COUNTING;
  }

  lemma ReadingRuns()
    ensures Runs(Counted(), READING) && Run(Counted(), READING) == ReadDone()
  {
    hide Runs, Run, NextIo, IoEnabled, NextNet, NetEnabled, FrameOf;
    EmptyRun(Counted());
    var acts, t := [], Counted();
    acts, t := Extend(Counted(), acts, t, READING[0]);
    acts, t := Extend(Counted(), acts, t, READING[1]);
    assert t.rx.buffer == HEARD && t.net == ReadDone().net;
    acts, t := Extend(Counted(), acts, t, READING[2]);
    acts, t := Extend(Counted(), acts, t, READING[3]);
    assert acts == READING;
  }

  lemma WritingRuns()
    ensures Runs(ReadDone(), WRITING) && Run(ReadDone(), WRITING) == WriteIssued()
  {
    hide Runs, Run, NextIo, IoEnabled, NextNet, NetEnabled, FrameOf, NextRx, RxEnabled;
    EmptyRun(ReadDone());
    var acts, t := [], ReadDone();
    acts, t := Extend(ReadDone(), acts, t, WRITING[0]);
    acts, t := Extend(ReadDone(), acts, t, WRITING[1]);
    acts, t := Extend(ReadDone(), acts, t, WRITING[2]);
    acts, t := Extend(ReadDone(), acts, t, WRITING[3]);
    assert acts == WRITING;
  }

  lemma EndingRuns()
    ensures Runs(WriteIssued(), ENDING) && Run(WriteIssued(), ENDING) == WriteEnds()
  {
    hide Runs, Run, NextIo, IoEnabled, NextNet, NetEnabled, FrameOf;
    EmptyRun(WriteIssued());
    var acts, t := [], WriteIssued();
    acts, t := Extend(WriteIssued(), acts, t, ENDING[0]);
    acts, t := Extend(WriteIssued(), acts, t, ENDING[1]);
    acts, t := Extend(WriteIssued(), acts, t, ENDING[2]);
    acts, t := Extend(WriteIssued(), acts, t, ENDING[3]);
    assert acts == ENDING;
  }

  const READ: seq<Action> := ASKING + TELLING + MATCHING + RETRYING + TELLING_AGAIN + COUNTING + READING

  lemma ReadRuns()
    ensures Runs(Start(), READ) && Run(Start(), READ) == ReadDone()
  {
    hide Runs, Run;
    AskingRuns();
    TellingRuns();
    MatchingRuns();
    RetryingRuns();
    TellingAgainRuns();
    CountingRuns();
    ReadingRuns();
    Chain(Start(), ASKING, TELLING);
    Chain(Start(), ASKING + TELLING, MATCHING);
    Chain(Start(), ASKING + TELLING + MATCHING, RETRYING);
    Chain(Start(), ASKING + TELLING + MATCHING + RETRYING, TELLING_AGAIN);
    Chain(Start(), ASKING + TELLING + MATCHING + RETRYING + TELLING_AGAIN, COUNTING);
    Chain(Start(), ASKING + TELLING + MATCHING + RETRYING + TELLING_AGAIN + COUNTING, READING);
  }

  const BOTH: seq<Action> := READ + WRITING + ENDING

  /**
   * The counters of every attempt are handled without a break and every status is 0, but the write returns
   * on the answer to the second attempt of the read before it.
   */
  lemma LostWrite()
    ensures Returns(Start(), BOTH) && Undivided(Start(), BOTH + [CHECK])
    ensures var t := Run(Start(), BOTH + [CHECK]);
            && t.call.write && t.call.wait && t.call.entry == 1 && t.call.entry in t.regs && Entry(t).words == [7]
            && Memory(t.net, 1) == [5] && t.call.reqCnt == 3 && t.io.transmitted == [1, 2]
  {
    hide Runs, Run, Undivided;
    ReadRuns();
    WritingRuns();
    EndingRuns();
    Chain(Start(), READ, WRITING);
    Chain(Start(), READ + WRITING, ENDING);
    var acts, t := Extend(Start(), BOTH, WriteEnds(), CHECK);
    NeverWritten();
    Adjacent();
  }

  lemma NeverWritten()
    ensures MemoryAfter(HARDWARE, [ASKED1, ASKED2], 1) == [5]
  {
    assert [ASKED1][..0] == [];
    assert MemoryAfter(HARDWARE, [ASKED1], 1) == MemoryAfter(HARDWARE, [], 1);
    assert [ASKED1, ASKED2][..1] == [ASKED1];
  }

  lemma Adjacent()
    ensures Undivided(Start(), BOTH + [CHECK])
  {
    var front, middle, back := ASKING + TELLING, MATCHING + RETRYING + TELLING_AGAIN + COUNTING + READING,
                               WRITING + ENDING + [CHECK];
    var acts := BOTH + [CHECK];
    assert acts == front + middle + back;
    assert |front| == 9 && |middle| == 18 && |back| == 9;
    assert acts[3] == ADVANCE && acts[13] == ADVANCE && acts[30] == ADVANCE;
    forall i | 0 <= i < |acts| && acts[i] == Requesting(Snapshot) ensures i == 2 || i == 12 || i == 29 {
      assert acts[i] == if i < 9 then front[i] else if i < 27 then middle[i - 9] else back[i - 27];
    }
  }
}
