/**
 * The recording file of a communication link: an optional write buffer in front of
 * size-rotated files. What the operating system is told to write is kept as a list of
 * sessions, one for every successful `open`, in that order; a file opened again under the
 * same name holds its sessions one after the other.
 */
module DataFile {
  import opened Words
  import opened DataFormat

  const NO_FILE := -1

  /** `part` is the number appended by rotation, 0 when rotation is off. */
  datatype FileName = FileName(base: string, part: nat)

  datatype Session = Session(name: FileName, bytes: seq<Byte>)

  datatype FileState = FileState(
    fd: int,                  // dataFileFd_: index of the open session, or NO_FILE
    name: string,             // dataFile_
    maxSize: Word,
    fileCount: nat,
    fileSize: Word,
    bufEn: bool,              // buffWriteEn_
    bufSize: Word,            // buffWriteSize_
    pending: seq<Byte>,       // the first buffWriteTotal_ bytes of buffWriteData_
    sessions: seq<Session>
  ) {
    predicate Valid() {
      && (fd == NO_FILE || (0 <= fd && fd == |sessions| - 1))
      && |pending| <= bufSize
      && (!bufEn ==> pending == [])
    }

    /** What the write buffer demands of each single write. */
    predicate Fits(n: nat) {
      bufEn ==> n <= bufSize
    }

    /** The next record moves on to a new file. */
    predicate Rotates() {
      fd != NO_FILE && maxSize != 0 && fileSize > maxSize
    }
  }

  const INITIAL := FileState(NO_FILE, "", 0, 0, 0, false, 0, [], [])

  /** Write straight to the open file; without one the bytes are gone. */
  function Append(s: FileState, bs: seq<Byte>): (t: FileState)
    requires s.Valid()
    ensures t.Valid()
  {
    if s.fd == NO_FILE || bs == [] then s
    else s.(sessions := s.sessions[s.fd := Session(s.sessions[s.fd].name, s.sessions[s.fd].bytes + bs)])
  }

  /** `buffWrite`: the empty write flushes. */
  function BuffWrite(s: FileState, bs: seq<Byte>): (t: FileState)
    requires s.Valid() && s.Fits(|bs|)
    ensures t.Valid()
  {
    if !s.bufEn then Append(s, bs)
    else if bs == [] then Append(s, s.pending).(pending := [])
    else if |bs| + |s.pending| > s.bufSize then Append(s, s.pending).(pending := bs)
    else s.(pending := s.pending + bs)
  }

  /** The count `buffWrite` reports; an unbuffered write without a file fails with -1. */
  function Reported(s: FileState, n: nat): int {
    if !s.bufEn && n > 0 && s.fd == NO_FILE then -1 else n
  }

  function CountedWrite(s: FileState, bs: seq<Byte>): (t: FileState)
    requires s.Valid() && s.Fits(|bs|)
    ensures t.Valid()
  {
    BuffWrite(s, bs).(fileSize := Wrap(s.fileSize + Reported(s, |bs|)))
  }

  function OpenSession(s: FileState, ok: bool): (t: FileState)
    requires s.Valid()
    ensures t.Valid()
  {
    if ok then s.(fd := |s.sessions|, sessions := s.sessions + [Session(FileName(s.name, s.fileCount), [])])
    else s.(fd := NO_FILE)
  }

  /** `checkFileSize`; `ok` is the outcome of opening the next file. */
  function CheckFileSize(s: FileState, ok: bool): (t: FileState)
    requires s.Valid()
    ensures t.Valid()
  {
    if s.Rotates() then
      OpenSession(BuffWrite(s, []).(fileSize := 0, fileCount := s.fileCount + 1), ok)
    else s
  }

  /** Recording one tag and payload under the file mutex. */
  function WriteTagged(s: FileState, tag: Word, payload: seq<Byte>, ok: bool): (t: FileState)
    requires s.Valid() && s.Fits(4) && s.Fits(|payload|)
    ensures t.Valid()
  {
    if s.fd == NO_FILE then s
    else CountedWrite(CountedWrite(CheckFileSize(s, ok), WordBytes(tag)), payload)
  }

  function OpenDataFile(s: FileState, file: string, maxSize: Word, ok: bool): (t: FileState)
    requires s.Valid()
    ensures t.Valid()
  {
    OpenSession(s.(fileSize := 0, name := file, maxSize := maxSize, fileCount := if maxSize > 0 then 1 else 0), ok)
  }

  function CloseDataFile(s: FileState): (t: FileState)
    requires s.Valid()
    ensures t.Valid()
  {
    BuffWrite(s, []).(fd := NO_FILE, fileSize := 0)
  }

  function EnableWriteBuffer(s: FileState, size: Word, ok: bool): (t: FileState)
    requires s.Valid()
    ensures t.Valid()
  {
    s.(bufEn := ok, bufSize := if ok then size else 0, pending := [])
  }
}
