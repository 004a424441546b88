/** Which records each single file holds, and when rotation moves on. */
module FileRotation {
  import opened Words
  import opened DataFormat
  import opened DataFile
  import opened FileLog

  /** The records accepted while each session was the open one. */
  type Logs = seq<seq<Record>>

  /** Every file left behind is whole; the open one is whole together with the buffer. */
  ghost predicate FilesMatch(s: FileState, logs: Logs)
    requires s.Valid()
  {
    && |logs| == |s.sessions|
    && (forall k :: 0 <= k < |logs| && k != s.fd ==> s.sessions[k].bytes == EncodeAll(logs[k]))
    && (s.fd != NO_FILE ==> s.sessions[s.fd].bytes + s.pending == EncodeAll(logs[s.fd]))
    && (s.fd == NO_FILE ==> s.pending == [])
  }

  function LogWrite(logs: Logs, r: Record): Logs
    requires logs != []
  {
    logs[|logs| - 1 := logs[|logs| - 1] + [r]]
  }

  function NextLogs(s: FileState, logs: Logs, op: Op): Logs
    requires s.Valid() && |logs| == |s.sessions|
  {
    match op
    case Write(r, ok) =>
      if s.fd == NO_FILE || (s.Rotates() && !ok) then logs
      else LogWrite(if s.Rotates() then logs + [[]] else logs, r)
    case Open(_, _, ok) => if ok then logs + [[]] else logs
    case _ => logs
  }

  /** Guards a caller can check before each step. */
  predicate KeepsFiles(s: FileState, op: Op) {
    match op
    case Write(r, ok) => s.bufEn && s.Rotates() && Payload(r) != [] ==> ok
    case Open(_, _, _) => s.pending == []
    case Close => true
    case EnableBuffer(_, _) => s.pending == []
  }

  lemma FlushFiles(s: FileState, logs: Logs)
    requires s.Valid() && FilesMatch(s, logs)
    ensures var t := BuffWrite(s, []); t.pending == [] && t.fd == s.fd && FilesMatch(t, logs)
    ensures forall k :: 0 <= k < |logs| ==> BuffWrite(s, []).sessions[k].bytes == EncodeAll(logs[k])
  {
  }

  lemma OpenFiles(s: FileState, logs: Logs, ok: bool)
    requires s.Valid() && |logs| == |s.sessions| && s.pending == []
    requires forall k :: 0 <= k < |logs| ==> s.sessions[k].bytes == EncodeAll(logs[k])
    ensures FilesMatch(OpenSession(s, ok), if ok then logs + [[]] else logs)
  {
  }

  lemma CheckFileSizeFiles(s: FileState, logs: Logs, ok: bool)
    requires s.Valid() && FilesMatch(s, logs)
    ensures FilesMatch(CheckFileSize(s, ok), if s.Rotates() && ok then logs + [[]] else logs)
  {
    if s.Rotates() {
      FlushFiles(s, logs);
      OpenFiles(BuffWrite(s, []).(fileSize := 0, fileCount := s.fileCount + 1), logs, ok);
    }
  }

  /** `sofar` is what the open file and the buffer held before the write. */
  lemma CountedWriteFiles(s: FileState, bs: seq<Byte>)
    requires s.Valid() && s.Fits(|bs|) && s.fd != NO_FILE
    ensures var t := CountedWrite(s, bs);
            && t.fd == s.fd && |t.sessions| == |s.sessions| && t.bufEn == s.bufEn && t.bufSize == s.bufSize
            && t.sessions[s.fd].bytes + t.pending == s.sessions[s.fd].bytes + s.pending + bs
            && (forall k :: 0 <= k < |s.sessions| && k != s.fd ==> t.sessions[k] == s.sessions[k])
  {
  }

  lemma RecordFiles(c: FileState, logs: Logs, r: Record)
    requires c.Valid() && FilesMatch(c, logs) && c.Fits(4) && c.Fits(|Payload(r)|)
    requires c.fd != NO_FILE
    ensures var t := CountedWrite(CountedWrite(c, WordBytes(Tag(r))), Payload(r));
            FilesMatch(t, LogWrite(logs, r))
  {
    hide CountedWrite, WordBytes, Tag, Payload, EncodeAll;
    var h := CountedWrite(c, WordBytes(Tag(r)));
    CountedWriteFiles(c, WordBytes(Tag(r)));
    var t := CountedWrite(h, Payload(r));
    CountedWriteFiles(h, Payload(r));
    EncodeAllAppend(logs[c.fd], r);
    var held := c.sessions[c.fd].bytes + c.pending;
    assert held + WordBytes(Tag(r)) + Payload(r) == held + Encode(r);
    forall k | 0 <= k < |logs| && k != t.fd
      ensures t.sessions[k].bytes == EncodeAll(LogWrite(logs, r)[k])
    {
      assert t.sessions[k] == h.sessions[k] == c.sessions[k];
    }
  }

  lemma WriteFiles(s: FileState, logs: Logs, r: Record, ok: bool)
    requires s.Valid() && FilesMatch(s, logs) && Fits(s, Write(r, ok))
    requires s.fd != NO_FILE && (s.Rotates() ==> ok)
    ensures FilesMatch(Apply(s, Write(r, ok)), NextLogs(s, logs, Write(r, ok)))
  {
    var mid := if s.Rotates() then logs + [[]] else logs;
    CheckFileSizeFiles(s, logs, ok);
    RecordFiles(CheckFileSize(s, ok), mid, r);
  }

  lemma LostRotationFiles(s: FileState, logs: Logs, r: Record)
    requires s.Valid() && FilesMatch(s, logs) && Fits(s, Write(r, false)) && s.Rotates()
    ensures FilesMatch(Apply(s, Write(r, false)), logs) <==> !s.bufEn || Payload(r) == []
  {
    var c := CheckFileSize(s, false);
    CheckFileSizeFiles(s, logs, false);
    var h := CountedWrite(c, WordBytes(Tag(r)));
    var t := CountedWrite(h, Payload(r));
    assert h.sessions == c.sessions && t.sessions == c.sessions;
    assert t.pending == [] <==> !s.bufEn || Payload(r) == [];
  }

  /** One step keeps every file equal to its own records exactly under the guard. */
  lemma StepFiles(s: FileState, logs: Logs, op: Op)
    requires s.Valid() && Fits(s, op) && FilesMatch(s, logs)
    ensures FilesMatch(Apply(s, op), NextLogs(s, logs, op)) <==> KeepsFiles(s, op)
  {
    match op
    case Write(r, ok) =>
      if s.fd != NO_FILE {
        if s.Rotates() && !ok { LostRotationFiles(s, logs, r); } else { WriteFiles(s, logs, r, ok); }
      }
    case Open(file, max, ok) =>
      var q := s.(fileSize := 0, name := file, maxSize := max, fileCount := if max > 0 then 1 else 0);
      if s.pending == [] {
        assert s.fd != NO_FILE ==> s.sessions[s.fd].bytes + [] == s.sessions[s.fd].bytes;
        OpenFiles(q, logs, ok);
      } else if ok {
        assert Apply(s, op).sessions[s.fd].bytes != EncodeAll(logs[s.fd]) by {
          assert |s.sessions[s.fd].bytes| < |EncodeAll(logs[s.fd])|;
        }
        assert NextLogs(s, logs, op)[s.fd] == logs[s.fd];
      }
    case Close => FlushFiles(s, logs);
    case EnableBuffer(_, _) =>
      if s.fd != NO_FILE && s.pending != [] {
        assert |s.sessions[s.fd].bytes| < |EncodeAll(logs[s.fd])|;
      }
  }

  predicate FilesKept(s: FileState, ops: seq<Op>)
    requires s.Valid() && Runs(s, ops)
    decreases |ops|
  {
    ops == [] || (KeepsFiles(s, ops[0]) && FilesKept(Apply(s, ops[0]), ops[1..]))
  }

  function RunLogs(s: FileState, logs: Logs, ops: seq<Op>): Logs
    requires s.Valid() && Runs(s, ops) && |logs| == |s.sessions|
    decreases |ops|
  {
    if ops == [] then logs
    else
      NextLogsLength(s, logs, ops[0]);
      RunLogs(Apply(s, ops[0]), NextLogs(s, logs, ops[0]), ops[1..])
  }

  lemma NextLogsLength(s: FileState, logs: Logs, op: Op)
    requires s.Valid() && Fits(s, op) && |logs| == |s.sessions|
    ensures |NextLogs(s, logs, op)| == |Apply(s, op).sessions|
  {
    hide Tag, Payload, WordBytes, CountedWrite;
    if op.Write? && s.fd != NO_FILE {
      var c := CheckFileSize(s, op.ok);
      CountedWriteLength(c, WordBytes(Tag(op.record)));
      CountedWriteLength(CountedWrite(c, WordBytes(Tag(op.record))), Payload(op.record));
    }
  }

  lemma CountedWriteLength(s: FileState, bs: seq<Byte>)
    requires s.Valid() && s.Fits(|bs|)
    ensures var t := CountedWrite(s, bs);
            |t.sessions| == |s.sessions| && t.bufEn == s.bufEn && t.bufSize == s.bufSize && t.fd == s.fd
  {
  }

  /** No record is split between files in any run that keeps to the guards. */
  lemma {:induction false} RunFiles(s: FileState, logs: Logs, ops: seq<Op>)
    requires s.Valid() && Runs(s, ops) && FilesKept(s, ops) && FilesMatch(s, logs)
    ensures FilesMatch(Run(s, ops), RunLogs(s, logs, ops))
    decreases |ops|
  {
    if ops != [] {
      StepFiles(s, logs, ops[0]);
      RunFiles(Apply(s, ops[0]), NextLogs(s, logs, ops[0]), ops[1..]);
    }
  }

  /** Each file that has been left, read on its own, gives exactly its records. */
  lemma LeftFileDecodes(ops: seq<Op>, k: nat)
    requires Runs(INITIAL, ops) && FilesKept(INITIAL, ops)
    requires k < |Run(INITIAL, ops).sessions| && k != Run(INITIAL, ops).fd
    ensures |RunLogs(INITIAL, [], ops)| == |Run(INITIAL, ops).sessions|
    ensures var log := RunLogs(INITIAL, [], ops)[k];
            (forall r :: r in log ==> WellSized(r)) ==>
              Decode(Run(INITIAL, ops).sessions[k].bytes) == Parsed(log, [])
  {
    RunFiles(INITIAL, [], ops);
    var log := RunLogs(INITIAL, [], ops)[k];
    if forall r :: r in log ==> WellSized(r) {
      DecodeInvertsEncode(log, []);
      assert EncodeAll(log) + [] == EncodeAll(log);
      assert log + [] == log;
    }
  }

  /* ----- Names used again ----- */

  /** A session with what the write buffer holds for it. */
  function Held(s: FileState, k: nat): seq<Byte>
    requires s.Valid() && k < |s.sessions|
  {
    s.sessions[k].bytes + if k == s.fd then s.pending else []
  }

  /** What stands under a name once the buffer is written: its sessions among the first `n`, one after the other. */
  function NamedBytes(s: FileState, name: FileName, n: nat): seq<Byte>
    requires s.Valid() && n <= |s.sessions|
  {
    if n == 0 then []
    else NamedBytes(s, name, n - 1) + if s.sessions[n - 1].name == name then Held(s, n - 1) else []
  }

  function NamedLog(s: FileState, logs: Logs, name: FileName, n: nat): seq<Record>
    requires |logs| == |s.sessions| && n <= |logs|
  {
    if n == 0 then []
    else NamedLog(s, logs, name, n - 1) + if s.sessions[n - 1].name == name then logs[n - 1] else []
  }

  lemma {:induction false} EncodeAllConcat(a: seq<Record>, b: seq<Record>)
    ensures EncodeAll(a + b) == EncodeAll(a) + EncodeAll(b)
  {
    if a == [] {
      assert a + b == b;
    } else {
      assert (a + b)[1..] == a[1..] + b;
      EncodeAllConcat(a[1..], b);
    }
  }

  lemma {:induction false} NamedEncoded(s: FileState, logs: Logs, name: FileName, n: nat)
    requires s.Valid() && FilesMatch(s, logs) && n <= |logs| == |s.sessions|
    ensures NamedBytes(s, name, n) == EncodeAll(NamedLog(s, logs, name, n))
  {
    hide EncodeAll, FilesMatch, Held;
    if n == 0 {
      NothingEncoded();
    } else {
      NamedEncoded(s, logs, name, n - 1);
      HeldEncoded(s, logs, n - 1);
      var bytes, log := NamedBytes(s, name, n - 1), NamedLog(s, logs, name, n - 1);
      assert bytes + [] == bytes && log + [] == log;
      EncodeAllConcat(log, logs[n - 1]);
    }
  }

  lemma NothingEncoded()
    ensures EncodeAll([]) == []
  {
  }

  lemma HeldEncoded(s: FileState, logs: Logs, k: nat)
    requires s.Valid() && FilesMatch(s, logs) && k < |logs| == |s.sessions|
    ensures Held(s, k) == EncodeAll(logs[k])
  {
    hide EncodeAll;
    assert s.sessions[k].bytes + [] == s.sessions[k].bytes;
  }

  /** however often a name was opened, the bytes under it are the records of all its sessions, in order. */
  lemma NamedFileDecodes(ops: seq<Op>, name: FileName)
    requires Runs(INITIAL, ops) && FilesKept(INITIAL, ops)
    ensures |RunLogs(INITIAL, [], ops)| == |Run(INITIAL, ops).sessions|
    ensures var s, logs := Run(INITIAL, ops), RunLogs(INITIAL, [], ops);
            var log := NamedLog(s, logs, name, |logs|);
            (forall r :: r in log ==> WellSized(r)) ==> Decode(NamedBytes(s, name, |logs|)) == Parsed(log, [])
  {
    RunFiles(INITIAL, [], ops);
    var s, logs := Run(INITIAL, ops), RunLogs(INITIAL, [], ops);
    var log := NamedLog(s, logs, name, |logs|);
    NamedEncoded(s, logs, name, |logs|);
    if forall r :: r in log ==> WellSized(r) {
      DecodeInvertsEncode(log, []);
      assert EncodeAll(log) + [] == EncodeAll(log) && log + [] == log;
    }
  }

  /* ----- Sizes ----- */

  /** The size counter is the true size, and the file was not yet full before its last record. */
  predicate SizesMatch(s: FileState, logs: Logs)
    requires s.Valid() && |logs| == |s.sessions|
  {
    s.fd != NO_FILE && s.maxSize != 0 ==>
      var log := logs[s.fd];
      && s.fileSize == |EncodeAll(log)|
      && (log != [] ==> |EncodeAll(log[..|log| - 1])| <= s.maxSize)
  }

  /** The 32-bit counter does not pass its end with this record. */
  predicate CounterHolds(s: FileState, op: Op) {
    op.Write? && s.fd != NO_FILE && s.maxSize != 0 ==>
      (if s.Rotates() then 0 else s.fileSize) + |Encode(op.record)| < TWO_32
  }

  lemma WriteSizes(s: FileState, logs: Logs, r: Record)
    requires s.Valid() && |logs| == |s.sessions| && SizesMatch(s, logs) && Fits(s, Write(r, true))
    requires s.fd != NO_FILE && s.maxSize != 0
    ensures |NextLogs(s, logs, Write(r, true))| == |Apply(s, Write(r, true)).sessions|
    ensures SizesMatch(Apply(s, Write(r, true)), NextLogs(s, logs, Write(r, true)))
            <==> CounterHolds(s, Write(r, true))
  {
    hide WriteTagged, CheckFileSize, CountedWrite, Encode, EncodeAll, SizesMatch, NextLogs, Apply;
    NextLogsLength(s, logs, Write(r, true));
    BeforeRecord(s, logs);
    AfterRecord(s, r);
    NextLogsHere(s, logs, r);
    SizesAfter(Apply(s, Write(r, true)), NextLogs(s, logs, Write(r, true)),
               if s.Rotates() then [] else logs[s.fd], r, CheckFileSize(s, true).fileSize);
  }

  lemma NextLogsHere(s: FileState, logs: Logs, r: Record)
    requires s.Valid() && |logs| == |s.sessions| && s.fd != NO_FILE
    ensures var next := NextLogs(s, logs, Write(r, true));
            if s.Rotates() then |next| == |logs| + 1 && next[|logs|] == [] + [r]
            else |next| == |logs| && next[s.fd] == logs[s.fd] + [r]
  {
  }

  lemma SizesAfter(t: FileState, next: Logs, log: seq<Record>, r: Record, before: nat)
    requires t.Valid() && |next| == |t.sessions| && t.fd != NO_FILE && t.maxSize != 0 && next[t.fd] == log + [r]
    requires |EncodeAll(log)| == before <= t.maxSize && t.fileSize == Wrap(before + |Encode(r)|)
    ensures SizesMatch(t, next) <==> before + |Encode(r)| < TWO_32
  {
    hide Encode, EncodeAll, Wrap;
    EncodeAllAppend(log, r);
    LastDropped(log, r);
    WrapExact(before + |Encode(r)|);
  }

  lemma BeforeRecord(s: FileState, logs: Logs)
    requires s.Valid() && |logs| == |s.sessions| && SizesMatch(s, logs) && s.fd != NO_FILE && s.maxSize != 0
    ensures var c := CheckFileSize(s, true);
            && c.maxSize == s.maxSize && c.fd == (if s.Rotates() then |logs| else s.fd)
            && c.fileSize == (if s.Rotates() then 0 else s.fileSize)
            && c.fileSize == |EncodeAll(if s.Rotates() then [] else logs[s.fd])| <= c.maxSize
  {
  }

  lemma AfterRecord(s: FileState, r: Record)
    requires s.Valid() && Fits(s, Write(r, true)) && s.fd != NO_FILE
    ensures var c, t := CheckFileSize(s, true), Apply(s, Write(r, true));
            t.fd == c.fd && t.maxSize == c.maxSize && t.fileSize == Wrap(c.fileSize + |Encode(r)|)
  {
    var c := CheckFileSize(s, true);
    assert c.Valid() && c.fd != NO_FILE && c.Fits(4) && c.Fits(|Payload(r)|);
    RecordSize(c, r);
  }

  lemma LastDropped(log: seq<Record>, r: Record)
    ensures (log + [r])[..|log + [r]| - 1] == log
  {
  }

  lemma WrapExact(n: nat)
    ensures Wrap(n) == n <==> n < TWO_32
  {
  }

  lemma CountedSize(s: FileState, bs: seq<Byte>)
    requires s.Valid() && s.Fits(|bs|) && s.fd != NO_FILE
    ensures var t := CountedWrite(s, bs);
            && t.fd == s.fd && t.maxSize == s.maxSize && t.bufEn == s.bufEn && t.bufSize == s.bufSize
            && t.fileSize == Wrap(s.fileSize + |bs|)
  {
  }

  lemma WrapTwice(a: int, b: int)
    ensures Wrap(Wrap(a) + b) == Wrap(a + b)
  {
  }

  lemma RecordSize(c: FileState, r: Record)
    requires c.Valid() && c.Fits(4) && c.Fits(|Payload(r)|) && c.fd != NO_FILE
    ensures var t := CountedWrite(CountedWrite(c, WordBytes(Tag(r))), Payload(r));
            t.fd == c.fd && t.maxSize == c.maxSize && t.fileSize == Wrap(c.fileSize + |Encode(r)|)
  {
    hide CountedWrite, WordBytes, Tag, Payload, Wrap;
    CountedSize(c, WordBytes(Tag(r)));
    CountedSize(CountedWrite(c, WordBytes(Tag(r))), Payload(r));
    WrapTwice(c.fileSize + 4, |Payload(r)|);
  }

  /** The size invariant survives a step exactly when the counter does not wrap. */
  lemma StepSizes(s: FileState, logs: Logs, op: Op)
    requires s.Valid() && Fits(s, op) && FilesMatch(s, logs) && SizesMatch(s, logs)
    requires KeepsFiles(s, op) && (op.Write? ==> op.ok)
    ensures |NextLogs(s, logs, op)| == |Apply(s, op).sessions|
    ensures SizesMatch(Apply(s, op), NextLogs(s, logs, op)) <==> CounterHolds(s, op)
  {
    NextLogsLength(s, logs, op);
    match op
    case Write(r, ok) => if s.fd != NO_FILE && s.maxSize != 0 { WriteSizes(s, logs, r); }
    case _ =>
  }

  /** A file that rotation closes is over the limit, and was not without its last record. */
  lemma RotatedOut(s: FileState, logs: Logs, r: Record)
    requires s.Valid() && FilesMatch(s, logs) && SizesMatch(s, logs) && Fits(s, Write(r, true))
    requires s.Rotates()
    ensures logs[s.fd] != []
    ensures var t, log := Apply(s, Write(r, true)), logs[s.fd];
            && |t.sessions| == |s.sessions| + 1
            && t.sessions[s.fd].bytes == EncodeAll(log)
            && |t.sessions[s.fd].bytes| > s.maxSize
            && |EncodeAll(log[..|log| - 1])| <= s.maxSize
            && t.sessions[t.fd].name == FileName(s.name, s.fileCount + 1)
            && t.sessions[t.fd].bytes + t.pending == Encode(r)
  {
    WriteFiles(s, logs, r, true);
    var t, next := Apply(s, Write(r, true)), NextLogs(s, logs, Write(r, true));
    assert t.fd == |logs| && next[s.fd] == logs[s.fd];
    assert next[t.fd] == [r];
    assert EncodeAll([r]) == Encode(r);
  }

  /** Guards for a run in which sizes matter: opens succeed, and no counter wraps. */
  predicate SizesKept(s: FileState, ops: seq<Op>)
    requires s.Valid() && Runs(s, ops)
    decreases |ops|
  {
    ops == []
    || (KeepsFiles(s, ops[0]) && (ops[0].Write? ==> ops[0].ok) && CounterHolds(s, ops[0])
        && SizesKept(Apply(s, ops[0]), ops[1..]))
  }

  lemma {:induction false} RunSizes(s: FileState, logs: Logs, ops: seq<Op>)
    requires s.Valid() && Runs(s, ops) && SizesKept(s, ops)
    requires FilesMatch(s, logs) && SizesMatch(s, logs)
    ensures FilesMatch(Run(s, ops), RunLogs(s, logs, ops))
    ensures SizesMatch(Run(s, ops), RunLogs(s, logs, ops))
    decreases |ops|
  {
    hide SizesMatch, KeepsFiles, CounterHolds, Apply, NextLogs, Fits;
    if ops != [] {
      NextLogsLength(s, logs, ops[0]);
      StepFiles(s, logs, ops[0]);
      StepSizes(s, logs, ops[0]);
      RunSizes(Apply(s, ops[0]), NextLogs(s, logs, ops[0]), ops[1..]);
    }
  }

  /** In every such run from a fresh link, a file is left exactly when its last record took it over the limit. */
  lemma RotationInRuns(ops: seq<Op>, r: Record)
    requires Runs(INITIAL, ops) && SizesKept(INITIAL, ops)
    requires var s := Run(INITIAL, ops); Fits(s, Write(r, true)) && s.Rotates()
    ensures var s, logs := Run(INITIAL, ops), RunLogs(INITIAL, [], ops);
            var t := Apply(s, Write(r, true));
            && |logs| == |s.sessions| && |t.sessions| == |s.sessions| + 1 && logs[s.fd] != []
            && t.sessions[s.fd].bytes == EncodeAll(logs[s.fd])
            && |EncodeAll(logs[s.fd])| > s.maxSize
            && |EncodeAll(logs[s.fd][..|logs[s.fd]| - 1])| <= s.maxSize
            && t.sessions[t.fd].bytes + t.pending == Encode(r)
  {
    hide Apply, Fits, Encode;
    RunSizes(INITIAL, [], ops);
    RotatedOut(Run(INITIAL, ops), RunLogs(INITIAL, [], ops), r);
  }

  /** What has been written to a file is never changed afterwards. */
  lemma {:induction false} FilesOnlyGrow(s: FileState, ops: seq<Op>, k: nat)
    requires s.Valid() && Runs(s, ops) && k < |s.sessions|
    ensures |s.sessions| <= |Run(s, ops).sessions|
    ensures Run(s, ops).sessions[k].name == s.sessions[k].name
    ensures s.sessions[k].bytes <= Run(s, ops).sessions[k].bytes
    ensures k != s.fd ==> Run(s, ops).sessions[k] == s.sessions[k]
    decreases |ops|
  {
    if ops != [] {
      StepGrows(s, ops[0], k);
      FilesOnlyGrow(Apply(s, ops[0]), ops[1..], k);
    }
  }

  lemma StepGrows(s: FileState, op: Op, k: nat)
    requires s.Valid() && Fits(s, op) && k < |s.sessions|
    ensures var t := Apply(s, op);
            && |s.sessions| <= |t.sessions|
            && t.sessions[k].name == s.sessions[k].name
            && s.sessions[k].bytes <= t.sessions[k].bytes
            && (k != s.fd ==> k != t.fd && t.sessions[k] == s.sessions[k])
  {
    hide Tag, Payload, WordBytes, CountedWrite;
    if op.Write? && s.fd != NO_FILE {
      var c := CheckFileSize(s, op.ok);
      CountedWriteLength(c, WordBytes(Tag(op.record)));
      CountedWriteGrows(c, WordBytes(Tag(op.record)), k);
      CountedWriteGrows(CountedWrite(c, WordBytes(Tag(op.record))), Payload(op.record), k);
    }
  }

  lemma CountedWriteGrows(s: FileState, bs: seq<Byte>, k: nat)
    requires s.Valid() && s.Fits(|bs|) && k < |s.sessions|
    ensures var t := CountedWrite(s, bs);
            && |t.sessions| == |s.sessions| && t.fd == s.fd
            && t.sessions[k].name == s.sessions[k].name
            && s.sessions[k].bytes <= t.sessions[k].bytes
            && (k != s.fd ==> t.sessions[k] == s.sessions[k])
  {
  }

  /* ----- What `openDataFile` asks for ----- */

  /** Sessions are called after the file asked for last, and numbered by rotation. */
  predicate Named(s: FileState)
    requires s.Valid()
  {
    s.fd != NO_FILE ==> s.sessions[s.fd].name == FileName(s.name, s.fileCount)
  }

  /** An open that succeeds starts an empty session under the name and limit asked for, part 1 if there is a limit. */
  lemma OpenedAsAsked(s: FileState, file: string, max: Word)
    requires s.Valid()
    ensures var t := Apply(s, Open(file, max, true));
            && t.fd == |s.sessions| && t.sessions[..t.fd] == s.sessions
            && t.sessions[t.fd] == Session(FileName(file, if max > 0 then 1 else 0), [])
            && t.fileSize == 0 && t.maxSize == max && !t.Rotates()
            && Apply(s, Open(file, max, false)).fd == NO_FILE
  {
  }

  lemma CountedWriteNames(s: FileState, bs: seq<Byte>)
    requires s.Valid() && s.Fits(|bs|)
    ensures var t := CountedWrite(s, bs);
            && t.name == s.name && t.maxSize == s.maxSize && t.fileCount == s.fileCount && (Named(s) ==> Named(t))
  {
  }

  lemma NamesStep(s: FileState, op: Op)
    requires s.Valid() && Fits(s, op) && !op.Open? && Named(s)
    ensures var t := Apply(s, op);
            && t.name == s.name && t.maxSize == s.maxSize && Named(t)
            && t.fileCount == s.fileCount + if op.Write? && s.Rotates() then 1 else 0
  {
    hide Tag, Payload, WordBytes, CountedWrite, CheckFileSize;
    if op.Write? && s.fd != NO_FILE {
      CheckNames(s, op.ok);
      var c := CheckFileSize(s, op.ok);
      CountedWriteLength(c, WordBytes(Tag(op.record)));
      CountedWriteNames(c, WordBytes(Tag(op.record)));
      CountedWriteNames(CountedWrite(c, WordBytes(Tag(op.record))), Payload(op.record));
    }
  }

  lemma CheckNames(s: FileState, ok: bool)
    requires s.Valid() && Named(s)
    ensures var t := CheckFileSize(s, ok);
            && t.name == s.name && t.maxSize == s.maxSize && Named(t)
            && t.fileCount == s.fileCount + (if s.Rotates() then 1 else 0)
            && t.bufEn == s.bufEn && t.bufSize == s.bufSize
  {
  }

  lemma {:induction false} RunNames(s: FileState, ops: seq<Op>)
    requires s.Valid() && Runs(s, ops) && Named(s) && forall op :: op in ops ==> !op.Open?
    ensures var t := Run(s, ops); t.name == s.name && t.maxSize == s.maxSize && Named(t)
    decreases |ops|
  {
    hide Named, Apply, Fits;
    if ops != [] {
      NamesStep(s, ops[0]);
      RunNames(Apply(s, ops[0]), ops[1..]);
    }
  }

  /** The file of `u` is left whole, and the record is alone in the next file of the same name. */
  ghost predicate Continues(u: FileState, t: FileState, r: Record) {
    && 0 <= u.fd < |u.sessions| && u.fd < t.fd < |t.sessions|
    && t.sessions[t.fd].name == FileName(u.sessions[u.fd].name.base, u.sessions[u.fd].name.part + 1)
    && t.sessions[t.fd].bytes + t.pending == Encode(r)
    && t.sessions[u.fd].bytes == u.sessions[u.fd].bytes + u.pending
  }

  /** The open file with what is buffered for it is over the limit. */
  predicate Over(u: FileState, max: Word)
    requires u.Valid() && u.fd != NO_FILE
  {
    max != 0 && |u.sessions[u.fd].bytes| + |u.pending| > max
  }

  /**
   * From an open on, until the next one: the next record moves on to a new file exactly when there is a limit
   * and the file with what is buffered for it is over that limit; the new file is called after the same name,
   * with the next number, and holds just the record.
   */
  lemma RotationUsesLimit(s: FileState, logs: Logs, file: string, max: Word, ops: seq<Op>, r: Record)
    requires s.Valid() && s.pending == [] && FilesMatch(s, logs)
    requires Runs(Apply(s, Open(file, max, true)), ops) && SizesKept(Apply(s, Open(file, max, true)), ops)
    requires forall op :: op in ops ==> !op.Open?
    requires var u := Run(Apply(s, Open(file, max, true)), ops); u.fd != NO_FILE && Fits(u, Write(r, true))
    ensures var u := Run(Apply(s, Open(file, max, true)), ops);
            var t := Apply(u, Write(r, true));
            && u.sessions[u.fd].name.base == file
            && if Over(u, max) then Continues(u, t, r) else t.fd == u.fd
  {
    hide Apply, Encode, KeepsFiles, SizesKept, FilesMatch, SizesMatch;
    var o := Apply(s, Open(file, max, true));
    var begun := Opened(s, logs, file, max);
    RunSizes(o, begun, ops);
    RunNames(o, ops);
    var u := Run(o, ops);
    RotatesExactly(u, RunLogs(o, begun, ops), r);
  }

  lemma Opened(s: FileState, logs: Logs, file: string, max: Word) returns (begun: Logs)
    requires s.Valid() && s.pending == [] && FilesMatch(s, logs)
    ensures var o := Apply(s, Open(file, max, true));
            && FilesMatch(o, begun) && |begun| == |o.sessions| && SizesMatch(o, begun) && Named(o)
            && o.name == file && o.maxSize == max
  {
    begun := NextLogs(s, logs, Open(file, max, true));
    StepFiles(s, logs, Open(file, max, true));
  }

  lemma RotatesExactly(u: FileState, logs: Logs, r: Record)
    requires u.Valid() && FilesMatch(u, logs) && SizesMatch(u, logs) && Named(u)
    requires u.fd != NO_FILE && Fits(u, Write(r, true))
    ensures var t := Apply(u, Write(r, true)); if Over(u, u.maxSize) then Continues(u, t, r) else t.fd == u.fd
  {
    hide Apply, Encode, EncodeAll;
    assert u.sessions[u.fd].bytes + u.pending == EncodeAll(logs[u.fd]);
    assert u.maxSize != 0 ==> u.fileSize == |EncodeAll(logs[u.fd])|;
    if u.Rotates() {
      RotatedOut(u, logs, r);
      MovedOn(u, r);
    } else {
      StaysThere(u, r);
    }
  }

  lemma MovedOn(u: FileState, r: Record)
    requires u.Valid() && u.Rotates() && Fits(u, Write(r, true))
    ensures Apply(u, Write(r, true)).fd == |u.sessions|
  {
    hide Tag, Payload, WordBytes, CountedWrite;
    var c := CheckFileSize(u, true);
    CountedWriteLength(c, WordBytes(Tag(r)));
    CountedWriteLength(CountedWrite(c, WordBytes(Tag(r))), Payload(r));
  }

  lemma StaysThere(u: FileState, r: Record)
    requires u.Valid() && !u.Rotates() && u.fd != NO_FILE && Fits(u, Write(r, true))
    ensures Apply(u, Write(r, true)).fd == u.fd
  {
    hide Tag, Payload, WordBytes, CountedWrite;
    CountedWriteLength(u, WordBytes(Tag(r)));
    CountedWriteLength(CountedWrite(u, WordBytes(Tag(r))), Payload(r));
  }
}
