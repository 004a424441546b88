/** The recording path of the communication link, as the program updates it in place. */
module Recorder {
  import opened Words
  import opened DataFormat
  import opened DataFile

  /** The members of the link that the recording path updates in place. */
  class Recorder {
    var dataFileFd: int
    var dataFile: string
    var maxSize: Word
    var fileCount: nat
    var fileSize: Word
    var buffWriteEn: bool
    var buffWriteSize: Word
    var buffWriteData: array<Byte>
    var buffWriteTotal: nat
    var sessions: seq<Session>

    ghost predicate Valid()
      reads this, buffWriteData
    {
      && buffWriteTotal <= buffWriteData.Length
      && (buffWriteEn ==> buffWriteData.Length == buffWriteSize)
      && State().Valid()
    }

    ghost function State(): FileState
      requires buffWriteTotal <= buffWriteData.Length
      reads this, buffWriteData
    {
      FileState(dataFileFd, dataFile, maxSize, fileCount, fileSize, buffWriteEn, buffWriteSize,
                buffWriteData[..buffWriteTotal], sessions)
    }

    constructor ()
      ensures Valid() && fresh(buffWriteData) && State() == INITIAL
    {
      dataFileFd, dataFile, maxSize, fileCount, fileSize := NO_FILE, "", 0, 0, 0;
      buffWriteEn, buffWriteSize, buffWriteTotal, sessions := false, 0, 0, [];
      buffWriteData := new Byte[0];
    }

    method Write(buf: seq<Byte>) returns (ret: int)
      requires Valid()
      modifies this`sessions
      ensures Valid() && State() == Append(old(State()), buf)
      ensures ret == if dataFileFd == NO_FILE then -1 else |buf|
    {
      if dataFileFd == NO_FILE {
        return -1;
      }
      var file := sessions[dataFileFd];
      sessions := sessions[dataFileFd := Session(file.name, file.bytes + buf)];
      assert file.bytes + [] == file.bytes;
      ret := |buf|;
    }

    method BuffWrite(buf: seq<Byte>) returns (ret: int)
      requires Valid() && State().Fits(|buf|)
      modifies this`sessions, this`buffWriteTotal, buffWriteData
      ensures Valid() && State() == DataFile.BuffWrite(old(State()), buf)
      ensures ret == Reported(old(State()), |buf|)
    {
      if !buffWriteEn && |buf| > 0 {
        ret := Write(buf);
        return;
      }
      if buffWriteTotal > 0 && (|buf| == 0 || |buf| + buffWriteTotal > buffWriteSize) {
        var _ := Write(buffWriteData[..buffWriteTotal]);
        buffWriteTotal := 0;
      }
      if buffWriteEn && |buf| > 0 {
        forall i | 0 <= i < |buf| {
          buffWriteData[buffWriteTotal + i] := buf[i];
        }
        buffWriteTotal := buffWriteTotal + |buf|;
      }
      ret := |buf|;
      assert State().pending == DataFile.BuffWrite(old(State()), buf).pending;
    }

    method CheckFileSize(ok: bool)
      requires Valid()
      requires dataFileFd != NO_FILE
      modifies this, buffWriteData
      ensures Valid() && buffWriteData == old(buffWriteData)
      ensures State() == DataFile.CheckFileSize(old(State()), ok)
    {
      if maxSize == 0 { return; }
      if fileSize > maxSize {
        var _ := BuffWrite([]);
        fileSize := 0;
        fileCount := fileCount + 1;
        OpenNext(ok);
      }
    }

    method OpenNext(ok: bool)
      requires Valid()
      modifies this`dataFileFd, this`sessions
      ensures Valid() && State() == OpenSession(old(State()), ok)
    {
      if ok {
        dataFileFd := |sessions|;
        sessions := sessions + [Session(FileName(dataFile, fileCount), [])];
      } else {
        dataFileFd := NO_FILE;
      }
    }

    method AddToFile(buf: seq<Byte>)
      requires Valid() && State().Fits(|buf|)
      modifies this, buffWriteData
      ensures Valid() && buffWriteData == old(buffWriteData)
      ensures State() == CountedWrite(old(State()), buf)
    {
      var n := BuffWrite(buf);
      fileSize := Wrap(fileSize + n);
    }

    /** The body both kinds of record run under the file mutex. */
    method Record(tag: Word, payload: seq<Byte>, ok: bool)
      requires Valid() && State().Fits(4) && State().Fits(|payload|)
      modifies this, buffWriteData
      ensures Valid() && buffWriteData == old(buffWriteData)
      ensures State() == WriteTagged(old(State()), tag, payload, ok)
    {
      if dataFileFd >= 0 {
        CheckFileSize(ok);
        AddToFile(WordBytes(tag));
        AddToFile(payload);
      }
    }

    method OpenDataFile(file: string, max: Word, ok: bool)
      requires Valid()
      modifies this
      ensures Valid() && buffWriteData == old(buffWriteData)
      ensures State() == DataFile.OpenDataFile(old(State()), file, max, ok)
    {
      fileSize := 0;
      dataFile := file;
      maxSize := max;
      fileCount := if maxSize > 0 then 1 else 0;
      OpenNext(ok);
    }

    method CloseDataFile()
      requires Valid()
      modifies this, buffWriteData
      ensures Valid() && buffWriteData == old(buffWriteData)
      ensures State() == DataFile.CloseDataFile(old(State()))
    {
      var _ := BuffWrite([]);
      dataFileFd := NO_FILE;
      fileSize := 0;
    }

    method EnableWriteBuffer(size: Word, ok: bool)
      requires Valid()
      modifies this
      ensures Valid() && fresh(buffWriteData)
      ensures State() == DataFile.EnableWriteBuffer(old(State()), size, ok)
    {
      buffWriteEn := true;
      buffWriteSize := size;
      buffWriteTotal := 0;
      buffWriteData := new Byte[if ok then size else 0];
      if !ok {
        buffWriteEn := false;
        buffWriteSize := 0;
      }
    }
  }
}
