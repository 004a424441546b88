/** What the recording file guarantees about the records it was given, over every run. */
module FileLog {
  import opened Words
  import opened DataFormat
  import opened DataFile

  /**
   * One critical section of the file mutex, or the enabling of the write buffer, which takes none; `ok` is
   * the outcome of the open or allocation in it.
   */
  datatype Op =
    | Write(record: Record, ok: bool)
    | Open(file: string, max: Word, ok: bool)
    | Close
    | EnableBuffer(size: Word, ok: bool)

  predicate Fits(s: FileState, op: Op) {
    op.Write? ==> s.Fits(4) && s.Fits(|Payload(op.record)|)
  }

  function Apply(s: FileState, op: Op): (t: FileState)
    requires s.Valid() && Fits(s, op)
    ensures t.Valid()
  {
    match op
    case Write(r, ok) => WriteTagged(s, Tag(r), Payload(r), ok)
    case Open(file, max, ok) => OpenDataFile(s, file, max, ok)
    case Close => CloseDataFile(s)
    case EnableBuffer(size, ok) => EnableWriteBuffer(s, size, ok)
  }

  predicate Runs(s: FileState, ops: seq<Op>)
    requires s.Valid()
    decreases |ops|
  {
    ops == [] || (Fits(s, ops[0]) && Runs(Apply(s, ops[0]), ops[1..]))
  }

  function Run(s: FileState, ops: seq<Op>): (t: FileState)
    requires s.Valid() && Runs(s, ops)
    ensures t.Valid()
    decreases |ops|
  {
    if ops == [] then s else Run(Apply(s, ops[0]), ops[1..])
  }

  /* ----- The bytes of all files and the write buffer, as one stream ----- */

  function FileBytes(sessions: seq<Session>): seq<Byte> {
    if sessions == [] then []
    else FileBytes(sessions[..|sessions| - 1]) + sessions[|sessions| - 1].bytes
  }

  function Stream(s: FileState): seq<Byte> {
    FileBytes(s.sessions) + s.pending
  }

  /** The records a step takes in: one, when a file is open for it. */
  function Accepted(s: FileState, op: Op): seq<Record> {
    match op
    case Write(r, ok) => if s.fd != NO_FILE && (s.Rotates() ==> ok) then [r] else []
    case _ => []
  }

  /** Guards a caller can check: no rotation fails over a buffer, nothing pending is dropped. */
  predicate KeepsStream(s: FileState, op: Op) {
    match op
    case Write(r, ok) => s.bufEn && s.Rotates() && Payload(r) != [] ==> ok
    case Open(_, _, _) => true
    case Close => s.fd != NO_FILE || s.pending == []
    case EnableBuffer(_, _) => s.pending == []
  }

  lemma AppendBytes(s: FileState, bs: seq<Byte>)
    requires s.Valid() && s.fd != NO_FILE
    ensures FileBytes(Append(s, bs).sessions) == FileBytes(s.sessions) + bs
  {
    var t := Append(s, bs).sessions;
    assert t[..s.fd] == s.sessions[..s.fd];
    assert s.sessions[s.fd].bytes + bs == t[s.fd].bytes;
  }

  lemma BuffWriteStream(s: FileState, bs: seq<Byte>)
    requires s.Valid() && s.Fits(|bs|) && s.fd != NO_FILE
    ensures Stream(BuffWrite(s, bs)) == Stream(s) + bs
  {
    AppendBytes(s, bs);
    AppendBytes(s, s.pending);
  }

  lemma CountedWriteStream(s: FileState, bs: seq<Byte>)
    requires s.Valid() && s.Fits(|bs|) && s.fd != NO_FILE
    ensures Stream(CountedWrite(s, bs)) == Stream(s) + bs
    ensures CountedWrite(s, bs).fd == s.fd
    ensures CountedWrite(s, bs).bufEn == s.bufEn && CountedWrite(s, bs).bufSize == s.bufSize
  {
    BuffWriteStream(s, bs);
  }

  lemma OpenSessionStream(s: FileState, ok: bool)
    requires s.Valid()
    ensures Stream(OpenSession(s, ok)) == Stream(s)
  {
    if ok {
      var t := OpenSession(s, ok).sessions;
      assert t[..|t| - 1] == s.sessions;
    }
  }

  lemma CheckFileSizeStream(s: FileState, ok: bool)
    requires s.Valid()
    ensures Stream(CheckFileSize(s, ok)) == Stream(s)
    ensures s.fd != NO_FILE && (s.Rotates() ==> ok) ==> CheckFileSize(s, ok).fd != NO_FILE
    ensures CheckFileSize(s, ok).bufEn == s.bufEn && CheckFileSize(s, ok).bufSize == s.bufSize
  {
    if s.Rotates() {
      BuffWriteStream(s, []);
      OpenSessionStream(BuffWrite(s, []).(fileSize := 0, fileCount := s.fileCount + 1), ok);
    }
  }

  lemma WriteStream(s: FileState, tag: Word, payload: seq<Byte>, ok: bool)
    requires s.Valid() && s.Fits(4) && s.Fits(|payload|)
    requires s.fd != NO_FILE && (s.Rotates() ==> ok)
    ensures Stream(WriteTagged(s, tag, payload, ok)) == Stream(s) + (WordBytes(tag) + payload)
  {
    hide CheckFileSize, CountedWrite, WordBytes, Stream;
    CheckFileSizeStream(s, ok);
    var c := CheckFileSize(s, ok);
    CountedWriteStream(c, WordBytes(tag));
    var h := CountedWrite(c, WordBytes(tag));
    CountedWriteStream(h, payload);
    assert (Stream(s) + WordBytes(tag)) + payload == Stream(s) + (WordBytes(tag) + payload);
  }

  /** After a failed rotation an unbuffered record vanishes, a buffered one stays behind in the buffer. */
  lemma FailedRotation(s: FileState, tag: Word, payload: seq<Byte>)
    requires s.Valid() && s.Fits(4) && s.Fits(|payload|) && s.Rotates()
    ensures Stream(WriteTagged(s, tag, payload, false)) == Stream(s) <==> !s.bufEn || payload == []
  {
    var c := CheckFileSize(s, false);
    var h := CountedWrite(c, WordBytes(tag));
    CheckFileSizeStream(s, false);
    assert c.pending == [];
    var t := CountedWrite(h, payload);
    assert h.sessions == c.sessions && t.sessions == c.sessions;
    assert t.pending == [] <==> !s.bufEn || payload == [];
    assert |Stream(t)| == |Stream(s)| + |t.pending|;
  }

  /** Its two writes fail with -1 each, and the size counter takes that. */
  lemma FailedRotationCounts(s: FileState, r: Record)
    requires s.Valid() && !s.bufEn && s.Rotates() && Payload(r) != []
    ensures Apply(s, Write(r, false)).fileSize == 0xFFFF_FFFE
  {
  }

  lemma FlushWithoutFile(s: FileState)
    requires s.Valid() && s.fd == NO_FILE
    ensures Stream(BuffWrite(s, [])) == Stream(s) <==> s.pending == []
  {
  }

  /** One step keeps the stream equal to the encoded records exactly under the guard. */
  lemma StepStream(s: FileState, op: Op)
    requires s.Valid() && Fits(s, op)
    ensures Stream(Apply(s, op)) == Stream(s) + EncodeAll(Accepted(s, op)) <==> KeepsStream(s, op)
  {
    match op
    case Write(r, ok) =>
      assert EncodeAll([r]) == Encode(r);
      if s.fd != NO_FILE {
        if s.Rotates() && !ok {
          FailedRotation(s, Tag(r), Payload(r));
        } else {
          WriteStream(s, Tag(r), Payload(r), ok);
        }
      }
    case Open(file, max, ok) =>
      OpenSessionStream(s.(fileSize := 0, name := file, maxSize := max, fileCount := if max > 0 then 1 else 0), ok);
    case Close =>
      if s.fd != NO_FILE { BuffWriteStream(s, []); } else { FlushWithoutFile(s); }
    case EnableBuffer(_, _) =>
  }

  predicate StreamKept(s: FileState, ops: seq<Op>)
    requires s.Valid() && Runs(s, ops)
    decreases |ops|
  {
    ops == [] || (KeepsStream(s, ops[0]) && StreamKept(Apply(s, ops[0]), ops[1..]))
  }

  function AllAccepted(s: FileState, ops: seq<Op>): seq<Record>
    requires s.Valid() && Runs(s, ops)
    decreases |ops|
  {
    if ops == [] then [] else Accepted(s, ops[0]) + AllAccepted(Apply(s, ops[0]), ops[1..])
  }

  lemma {:induction false} EncodeAllConcat(a: seq<Record>, b: seq<Record>)
    ensures EncodeAll(a + b) == EncodeAll(a) + EncodeAll(b)
  {
    if a == [] {
      assert a + b == b;
    } else {
      assert (a + b)[1..] == a[1..] + b;
      EncodeAllConcat(a[1..], b);
    }
  }

  /** Over a whole run: the files and the buffer hold the accepted records, complete and in order. */
  lemma {:induction false} RunStream(s: FileState, ops: seq<Op>)
    requires s.Valid() && Runs(s, ops) && StreamKept(s, ops)
    ensures Stream(Run(s, ops)) == Stream(s) + EncodeAll(AllAccepted(s, ops))
    decreases |ops|
  {
    if ops != [] {
      var t := Apply(s, ops[0]);
      StepStream(s, ops[0]);
      RunStream(t, ops[1..]);
      EncodeAllConcat(Accepted(s, ops[0]), AllAccepted(t, ops[1..]));
    }
  }

  /** From a fresh link the stream decodes to the accepted records, the files alone to a prefix of them. */
  lemma RunDecodes(ops: seq<Op>)
    requires Runs(INITIAL, ops) && StreamKept(INITIAL, ops)
    requires forall r :: r in AllAccepted(INITIAL, ops) ==> WellSized(r)
    ensures Decode(Stream(Run(INITIAL, ops))) == Parsed(AllAccepted(INITIAL, ops), [])
    ensures Decode(FileBytes(Run(INITIAL, ops).sessions)).records <= AllAccepted(INITIAL, ops)
  {
    var t, rs := Run(INITIAL, ops), AllAccepted(INITIAL, ops);
    RunStream(INITIAL, ops);
    assert Stream(INITIAL) == [];
    assert Stream(t) == EncodeAll(rs);
    SplitDecodes(rs, FileBytes(t.sessions), t.pending);
  }

  lemma SplitDecodes(rs: seq<Record>, written: seq<Byte>, pending: seq<Byte>)
    requires forall r :: r in rs ==> WellSized(r)
    requires written + pending == EncodeAll(rs)
    ensures Decode(written + pending) == Parsed(rs, [])
    ensures Decode(written).records <= rs
  {
    var all := EncodeAll(rs);
    DecodePrefix(rs, |all|);
    DecodePrefix(rs, |written|);
    assert all[..|all|] == all;
    assert (written + pending)[..|written|] == written;
  }

  /* ----- What the buffer and the two switches do ----- */

  /** With a buffer the file is touched only when the bytes do not fit behind those waiting, and gets just these. */
  lemma BufferDelays(s: FileState, bs: seq<Byte>)
    requires s.Valid() && s.fd != NO_FILE && s.bufEn && bs != [] && |bs| <= s.bufSize
    ensures var t := BuffWrite(s, bs);
            && t.sessions[..s.fd] == s.sessions[..s.fd] && t.sessions[s.fd].name == s.sessions[s.fd].name
            && if |s.pending| + |bs| <= s.bufSize then t.sessions == s.sessions && t.pending == s.pending + bs
               else t.sessions[s.fd].bytes == s.sessions[s.fd].bytes + s.pending && t.pending == bs
  {
  }

  /** Without one every byte is in the file at once, and after a flush or a close with one as well. */
  lemma UnbufferedIsWritten(s: FileState, bs: seq<Byte>)
    requires s.Valid() && s.fd != NO_FILE && s.Fits(|bs|)
    ensures var t := BuffWrite(s, bs);
            !s.bufEn ==> t.pending == [] && t.sessions[s.fd].bytes == s.sessions[s.fd].bytes + bs
    ensures var t := BuffWrite(s, []);
            t.pending == [] && t.sessions[s.fd].bytes == s.sessions[s.fd].bytes + s.pending
    ensures var t := Apply(s, Close);
            && t.fd == NO_FILE && t.fileSize == 0 && t.pending == []
            && |t.sessions| == |s.sessions| && t.sessions[..s.fd] == s.sessions[..s.fd]
            && t.sessions[s.fd] == Session(s.sessions[s.fd].name, s.sessions[s.fd].bytes + s.pending)
  {
  }

  lemma BufferAsAsked(s: FileState, size: Word, ok: bool)
    requires s.Valid()
    ensures var t := Apply(s, EnableBuffer(size, ok));
            && t.bufEn == ok && (ok ==> t.bufSize == size) && t.pending == []
            && t.sessions == s.sessions && t.fd == s.fd && t.fileSize == s.fileSize
  {
  }

  /** What the program itself does: every open succeeds and buffering starts with nothing pending. */
  predicate Ordinary(s: FileState, op: Op) {
    match op
    case Write(_, ok) => ok
    case Open(_, _, ok) => ok
    case Close => true
    case EnableBuffer(_, _) => s.pending == []
  }

  predicate OrdinaryRun(s: FileState, ops: seq<Op>)
    requires s.Valid() && Runs(s, ops)
    decreases |ops|
  {
    ops == [] || (Ordinary(s, ops[0]) && OrdinaryRun(Apply(s, ops[0]), ops[1..]))
  }

  /** Then every guard of the stream theorem holds on the way. */
  lemma {:induction false} OrdinaryKeepsStream(s: FileState, ops: seq<Op>)
    requires s.Valid() && Runs(s, ops) && OrdinaryRun(s, ops)
    requires s.fd == NO_FILE ==> s.pending == []
    ensures StreamKept(s, ops)
    decreases |ops|
  {
    if ops != [] {
      OrdinaryKeepsStream(Apply(s, ops[0]), ops[1..]);
    }
  }

  /** A buffer enabled anew over pending bytes loses the record in it. */
  lemma EnablingAgainLosesRecords()
    ensures var ops := [Open("run", 0, true), EnableBuffer(64, true), Write(Raw([7]), true), EnableBuffer(64, true)];
            Runs(INITIAL, ops) && AllAccepted(INITIAL, ops) == [Raw([7])] && Stream(Run(INITIAL, ops)) == []
  {
    var s1 := Apply(INITIAL, Open("run", 0, true));
    var s2 := Apply(s1, EnableBuffer(64, true));
    assert s2.sessions == [Session(FileName("run", 0), [])];
    var r := Raw([7]);
    assert |Payload(r)| == 4;
    var s3 := Apply(s2, Write(r, true));
    assert s3.sessions == s2.sessions;
    var s4 := Apply(s3, EnableBuffer(64, true));
    assert FileBytes(s4.sessions) == [];
    assert Runs(s4, []) && Runs(s3, [EnableBuffer(64, true)]);
    assert Runs(s2, [Write(r, true), EnableBuffer(64, true)]);
    assert Runs(s1, [EnableBuffer(64, true), Write(r, true), EnableBuffer(64, true)]);
    assert AllAccepted(s3, [EnableBuffer(64, true)]) == [];
    assert AllAccepted(s2, [Write(r, true), EnableBuffer(64, true)]) == [r];
  }
}
