/** Register frames of the AXI-stream destination: what is built, and what is read out of a frame. */
module AxisFrame {
  import opened Words

  const MAX_REGISTER := 512
  const WRITE_FLAG := 0x4000_0000

  datatype MultType = RegisterWrite | RegisterRead

  datatype Received =
    | Nothing
    | Error
    | Frame(kind: MultType, context: Word, address: Word, words: seq<Word>, status: Word)

  function AddressWord(write: bool, address: Word): Word {
    (if write then WRITE_FLAG else 0) + address / 4
  }

  /** The frame of a register request. */
  function RequestFrame(write: bool, context: Word, address: Word, words: seq<Word>): seq<Word> {
    [context, AddressWord(write, address)] + if write then words + [0] else [Wrap(|words| - 1), 0]
  }

  /** Reading a frame, when the stream is no data source. `lastUser` reports a broken transfer. */
  function Parse(frame: seq<Word>, lastUser: Word): Received {
    if frame == [] then Nothing
    else if |frame| < 3 || lastUser != 0 || |frame| - 3 > MAX_REGISTER then Error
    else
      Frame(if (frame[1] / WRITE_FLAG) % 2 == 1 then RegisterWrite else RegisterRead,
            frame[0], Wrap((frame[1] as int) * 4), frame[2..|frame| - 1], frame[|frame| - 1])
  }

  lemma AddressWordReads(write: bool, address: Word)
    ensures (AddressWord(write, address) / WRITE_FLAG) % 2 == if write then 1 else 0
    ensures Wrap(4 * AddressWord(write, address)) == address - address % 4
  {
  }

  /** A write frame reads back as itself, for exactly the registers the receiver has room for. */
  lemma WriteFrameReadsBack(context: Word, address: Word, words: seq<Word>)
    ensures Parse(RequestFrame(true, context, address, words), 0)
            == Frame(RegisterWrite, context, address - address % 4, words, 0)
            <==> |words| <= MAX_REGISTER
  {
    AddressWordReads(true, address);
    var f := RequestFrame(true, context, address, words);
    assert f[2..|f| - 1] == words;
  }

  /** A response to a read carries the register's words between the address and the status. */
  lemma ReadResponseReadsBack(context: Word, address: Word, words: seq<Word>, status: Word)
    requires |words| <= MAX_REGISTER
    ensures Parse([context, AddressWord(false, address)] + words + [status], 0)
            == Frame(RegisterRead, context, address - address % 4, words, status)
  {
    AddressWordReads(false, address);
    var f := [context, AddressWord(false, address)] + words + [status];
    assert f[2..|f| - 1] == words;
  }

  /** Two requests share a frame only when they are the same request up to what the frame leaves out. */
  lemma FramesInjective(w1: bool, c1: Word, a1: Word, ws1: seq<Word>, w2: bool, c2: Word, a2: Word, ws2: seq<Word>)
    requires a1 % 4 == 0 && a2 % 4 == 0 && 0 < |ws1| < TWO_32 && 0 < |ws2| < TWO_32
    ensures RequestFrame(w1, c1, a1, ws1) == RequestFrame(w2, c2, a2, ws2) <==>
            w1 == w2 && c1 == c2 && a1 == a2 && (if w1 then ws1 == ws2 else |ws1| == |ws2|)
  {
    var f1, f2 := RequestFrame(w1, c1, a1, ws1), RequestFrame(w2, c2, a2, ws2);
    AddressWordReads(w1, a1);
    AddressWordReads(w2, a2);
    if f1 == f2 {
      assert f1[0] == f2[0] && f1[1] == f2[1];
      if w1 {
        assert ws1 == f1[2..|f1| - 1] && ws2 == f2[2..|f2| - 1];
      } else {
        assert f1[2] == f2[2];
      }
    }
  }

  /** What a device makes of a request: a write of some words, or a read of so many. */
  datatype Understood = WriteWords(context: Word, address: Word, words: seq<Word>)
                      | ReadWords(context: Word, address: Word, count: nat)
                      | Unclear

  /** Bit 30 of the second word marks a write, the 30 bits below count words of the address space. */
  function Understand(frame: seq<Word>): Understood {
    if |frame| < 3 then Unclear
    else
      var address: Word := 4 * (frame[1] % 0x4000_0000);
      if frame[1] / 0x4000_0000 == 1 then WriteWords(frame[0], address, frame[2..|frame| - 1])
      else if frame[1] / 0x4000_0000 == 0 && |frame| == 4 then ReadWords(frame[0], address, frame[2] as int + 1)
      else Unclear
  }

  /** A request is understood as it was meant: all words of a write, the size of a register to be read. */
  lemma RequestIsUnderstood(write: bool, context: Word, address: Word, words: seq<Word>)
    requires 0 < |words| < TWO_32
    ensures Understand(RequestFrame(write, context, address, words))
            == if write then WriteWords(context, address - address % 4, words)
               else ReadWords(context, address - address % 4, |words|)
    ensures |RequestFrame(write, context, address, words)| == if write then |words| + 3 else 4
    ensures RequestFrame(write, context, address, words)[if write then |words| + 2 else 3] == 0
  {
    var f := RequestFrame(write, context, address, words);
    assert address / 4 < 0x4000_0000;
    assert f[1] == if write then 0x4000_0000 + address / 4 else address / 4;
    if write { assert f[2..|f| - 1] == words; }
  }

  /** A frame is taken exactly when it is whole, unbroken and no longer than the receive register. */
  lemma TakenExactly(frame: seq<Word>, lastUser: Word)
    ensures Parse(frame, lastUser).Frame? <==> 3 <= |frame| <= 512 + 3 && lastUser == 0
    ensures Parse(frame, lastUser).Nothing? <==> frame == []
    ensures Parse(frame, lastUser).Frame? ==>
              var f := Parse(frame, lastUser);
              && frame == [f.context, frame[1]] + f.words + [f.status]
              && f.address == 4 * (frame[1] % 0x4000_0000)
              && (f.kind == RegisterWrite <==> (frame[1] / 0x4000_0000) % 2 == 1)
  {
  }

  /** The receiver compares its answer with the register asked for: only aligned addresses can match. */
  lemma OnlyAlignedMatch(context: Word, address: Word, words: seq<Word>, status: Word)
    requires |words| <= MAX_REGISTER
    ensures Parse([context, AddressWord(false, address)] + words + [status], 0).address == address
            <==> address % 4 == 0
  {
    ReadResponseReadsBack(context, address, words, status);
  }

  /** The buffers of the destination. */
  class MultDestAxis {
    const txData: array<Word>
    const rxWords: array<Word>     // of rxRegister_
    var rxAddress: Word
    var rxStatus: Word

    constructor (maxRxTx: nat)
      ensures txData.Length == maxRxTx && rxWords.Length == MAX_REGISTER
      ensures fresh(txData) && fresh(rxWords) && txData != rxWords
    {
      txData := new Word[maxRxTx];
      rxWords := new Word[MAX_REGISTER];
      rxAddress, rxStatus := 0, 0;
    }

    /** Fill the transmit buffer; the first `size` words of it go out. */
    method Transmit(write: bool, address: Word, data: seq<Word>, context: Word) returns (size: nat)
      requires |data| + 3 <= txData.Length && 4 <= txData.Length
      modifies txData
      ensures size <= txData.Length
      ensures txData[..size] == RequestFrame(write, context, address, data)
    {
      txData[0] := context;
      txData[1] := AddressWord(write, address);
      if write {
        forall i | 0 <= i < |data| {
          txData[2 + i] := data[i];
        }
        txData[|data| + 2] := 0;
        size := |data| + 3;
        assert txData[..size] == RequestFrame(write, context, address, data);
      } else {
        txData[2] := Wrap(|data| - 1);
        txData[3] := 0;
        size := 4;
      }
    }

    /** Read a register frame into the receive register; words beyond the frame's keep old content. */
    method Receive(rxData: seq<Word>, lastUser: Word) returns (ok: bool, kind: MultType, context: Word)
      requires rxWords.Length == MAX_REGISTER
      modifies this`rxAddress, this`rxStatus, rxWords
      ensures ok <==> Parse(rxData, lastUser).Frame?
      ensures ok ==>
                var f := Parse(rxData, lastUser);
                && kind == f.kind && context == f.context && rxAddress == f.address && rxStatus == f.status
                && rxWords[..|f.words|] == f.words && rxWords[|f.words|..] == old(rxWords[|f.words|..])
      ensures !ok ==> rxWords[..] == old(rxWords[..]) && rxStatus == old(rxStatus)
    {
      ok, kind, context := false, RegisterRead, 0;
      if |rxData| < 3 || lastUser != 0 { return; }
      context := rxData[0];
      rxAddress := Wrap((rxData[1] as int) * 4);
      kind := if (rxData[1] / WRITE_FLAG) % 2 == 1 then RegisterWrite else RegisterRead;
      if |rxData| - 3 > MAX_REGISTER { return; }
      forall i | 0 <= i < |rxData| - 3 {
        rxWords[i] := rxData[i + 2];
      }
      rxStatus := rxData[|rxData| - 1];
      ok := true;
    }
  }
}
