/** The bytes a PROM file delivers, one `read` after the other. */
module McsReader {
  import opened Words
  import opened McsFormat

  datatype Item = Item(address: Word, data: Byte)

  /** How one `read` ends. */
  datatype ReadResult = Delivered(item: Item) | FileEnd | Failed | Raised | Undetermined

  /**
   * The reader between two calls: `pending` are the bytes of the current line still to come, and `ended`
   * says whether the last line of the file has a line end.
   */
  datatype Reader = Reader(ended: bool, pos: nat, good: bool, base: Word, atEnd: bool, pending: seq<Item>)

  function Start(ended: bool): Reader {
    Reader(ended, 0, true, 0, false, [])
  }

  function Items(first: nat, data: seq<Byte>): (items: seq<Item>)
    ensures |items| == |data|
  {
    seq(|data|, i requires 0 <= i < |data| => Item(Wrap(first + i), data[i]))
  }

  /** The bytes of a record stand at consecutive addresses, which start again at the end of 32 bits. */
  lemma ItemsAre(first: nat, data: seq<Byte>, i: nat)
    requires i < |data|
    ensures Items(first, data)[i] == Item((first + i) % 0x1_0000_0000, data[i])
  {
    assert Items(first, data)[i] == Item(Wrap(first + i), data[i]);
  }

  function Paired(addresses: seq<Word>, data: seq<Byte>): (items: seq<Item>)
    requires |addresses| == |data|
    ensures |items| == |data|
  {
    seq(|data|, i requires 0 <= i < |data| => Item(addresses[i], data[i]))
  }

  /**
   * `next`: one line, and the record type it had. A last line without line end leaves the stream at the end
   * of the file; behind one with a line end the empty line is read first.
   */
  function NextRecord(lines: seq<string>, r: Reader): (Reader, Read<int>) {
    if !r.good then (r, Error)
    else if r.pos >= |lines| then (r.(good := false), OutOfRange)
    else
      Digested(Taken(lines, r), ReadLine(lines[r.pos]))
  }

  /** One line has been taken from the stream. */
  function Taken(lines: seq<string>, r: Reader): Reader {
    r.(pos := r.pos + 1, good := r.ended || r.pos + 1 < |lines|)
  }

  /** What a line does to the reader. */
  function Digested(r: Reader, line: Read<LineRecord>): (Reader, Read<int>) {
    match line
    case Ok(rec) => (After(r, rec), Ok(match rec
                                       case DataLine(_, _) => DATA_RECORD
                                       case BaseLine(_) => EXTENDED_LINEAR_ADDRESS_RECORD
                                       case EndLine => END_OF_FILE_RECORD))
    case Error => (r, Error)
    case OutOfRange => (r, OutOfRange)
    case Unspecified => (r, Unspecified)
  }

  function After(r: Reader, rec: LineRecord): Reader {
    match rec
    case DataLine(offset, data) => r.(pending := Items(r.base + offset, data))
    case BaseLine(upper) => r.(base := Wrap(upper * 0x1_0000))
    case EndLine => r.(atEnd := true)
  }

  /** `read`: lines are taken until one has data. */
  function ReadByte(lines: seq<string>, r: Reader): (Reader, ReadResult)
    decreases if r.pos < |lines| then |lines| - r.pos else 0
  {
    if r.pending != [] then (r.(pending := r.pending[1..]), Delivered(r.pending[0]))
    else if r.atEnd then (r, FileEnd)
    else
      var (s, status) := NextRecord(lines, r);
      match status
      case Error => (s, Failed)
      case OutOfRange => (s, Raised)
      case Unspecified => (s, Undetermined)
      case Ok(_) => ReadByte(lines, s)
  }

  /** All a file delivers: the bytes, and how reading ended. */
  datatype Stream = Stream(items: seq<Item>, end: ReadResult)

  lemma {:induction false} ReadByteProgress(lines: seq<string>, r: Reader)
    ensures var (s, out) := ReadByte(lines, r);
            out.Delivered? ==>
              && r.pos <= s.pos
              && (s.pos == r.pos ==> |s.pending| < |r.pending|)
              && (s.pos > r.pos ==> r.pos < |lines|)
    decreases if r.pos < |lines| then |lines| - r.pos else 0
  {
    if r.pending == [] && !r.atEnd {
      var (s, status) := NextRecord(lines, r);
      if status.Ok? { ReadByteProgress(lines, s); }
    }
  }

  function ReadAll(lines: seq<string>, r: Reader): Stream
    decreases (if r.pos < |lines| then |lines| - r.pos else 0), |r.pending|
  {
    ReadByteProgress(lines, r);
    var (s, out) := ReadByte(lines, r);
    if out.Delivered? then
      var more := ReadAll(lines, s);
      Stream([out.item] + more.items, more.end)
    else Stream([], out)
  }

  /** The bytes of a list of records, at the addresses they stand for. */
  function Flatten(recs: seq<LineRecord>, base: Word): seq<Item> {
    if recs == [] then []
    else
      match recs[0]
      case DataLine(offset, data) => Items(base + offset, data) + Flatten(recs[1..], base)
      case BaseLine(upper) => Flatten(recs[1..], Wrap(upper * 0x1_0000))
      case EndLine => []
  }

  lemma {:induction false} ReadAllPending(lines: seq<string>, r: Reader)
    ensures ReadAll(lines, r)
            == Stream(r.pending + ReadAll(lines, r.(pending := [])).items, ReadAll(lines, r.(pending := [])).end)
    decreases |r.pending|
  {
    hide ReadAll;
    if r.pending == [] {
      assert r.(pending := []) == r;
    } else {
      var s := r.(pending := r.pending[1..]);
      ReadAllPending(lines, s);
      ReadAllOne(lines, r);
      assert r.pending == [r.pending[0]] + s.pending;
      assert s.(pending := []) == r.(pending := []);
      ItemsAssociate([r.pending[0]], s.pending, ReadAll(lines, r.(pending := [])).items);
    }
  }

  lemma ReadAllOne(lines: seq<string>, r: Reader)
    requires r.pending != []
    ensures var more := ReadAll(lines, r.(pending := r.pending[1..]));
            ReadAll(lines, r) == Stream([r.pending[0]] + more.items, more.end)
  {
    hide NextRecord;
  }

  /** With nothing pending, reading goes on behind the next line unless that is the last one. */
  lemma ReadAllNext(lines: seq<string>, r: Reader)
    requires r.pending == [] && !r.atEnd && NextRecord(lines, r).1.Ok?
    ensures ReadAll(lines, r) == ReadAll(lines, NextRecord(lines, r).0)
  {
    var s := NextRecord(lines, r).0;
    assert ReadByte(lines, r) == ReadByte(lines, s);
  }

  /** The lines from `pos` on are those of the records, none of which is the end record. */
  ghost predicate LinesHold(lines: seq<string>, recs: seq<LineRecord>, pos: nat) {
    && pos + |recs| <= |lines|
    && forall i :: 0 <= i < |recs| ==> ReadLine(lines[pos + i]) == Ok(recs[i]) && !recs[i].EndLine?
  }

  lemma LinesHoldTail(lines: seq<string>, recs: seq<LineRecord>, pos: nat)
    requires LinesHold(lines, recs, pos) && recs != []
    ensures pos < |lines| && ReadLine(lines[pos]) == Ok(recs[0]) && !recs[0].EndLine?
    ensures LinesHold(lines, recs[1..], pos + 1)
  {
    assert ReadLine(lines[pos + 0]) == Ok(recs[0]);
    forall i | 0 <= i < |recs| - 1
      ensures ReadLine(lines[pos + 1 + i]) == Ok(recs[1..][i]) && !recs[1..][i].EndLine?
    {
      assert ReadLine(lines[pos + (i + 1)]) == Ok(recs[i + 1]);
    }
  }

  lemma NothingFlat(base: Word)
    ensures Flatten([], base) == []
  {
  }

  lemma EndStep(lines: seq<string>, r: Reader)
    requires r.pos < |lines| && r.good && !r.atEnd && r.pending == []
    requires ReadLine(lines[r.pos]) == Ok(EndLine)
    ensures ReadAll(lines, r) == Stream([], FileEnd)
  {
    ReadAllNext(lines, r);
  }

  /** Behind the last line of a file. */
  lemma CutStep(lines: seq<string>, r: Reader)
    requires r.pos == |lines| && !r.atEnd && r.pending == []
    ensures ReadAll(lines, r) == Stream([], if r.good then Raised else Failed)
  {
  }

  /** The reader when the lines of the records have been taken. */
  function Behind(lines: seq<string>, recs: seq<LineRecord>, r: Reader): Reader
    decreases |recs|
  {
    if recs == [] then r
    else Behind(lines, recs[1..], After(Taken(lines, r), recs[0]).(pending := []))
  }

  lemma {:induction false} BehindState(lines: seq<string>, recs: seq<LineRecord>, r: Reader)
    requires !r.atEnd && r.pending == [] && LinesHold(lines, recs, r.pos)
    ensures var t := Behind(lines, recs, r);
            && t.pos == r.pos + |recs| && !t.atEnd && t.pending == []
            && t.good == if recs == [] then r.good else r.ended || t.pos < |lines|
    decreases |recs|
  {
    hide ReadLine, LinesHold, Items;
    if recs != [] {
      LinesHoldTail(lines, recs, r.pos);
      BehindState(lines, recs[1..], After(Taken(lines, r), recs[0]).(pending := []));
    }
  }

  lemma {:induction false} RecordsThen(lines: seq<string>, recs: seq<LineRecord>, r: Reader)
    requires (recs != [] ==> r.good) && !r.atEnd && r.pending == [] && LinesHold(lines, recs, r.pos)
    ensures var more := ReadAll(lines, Behind(lines, recs, r));
            ReadAll(lines, r) == Stream(Flatten(recs, r.base) + more.items, more.end)
    decreases |recs|
  {
    hide ReadAll, Flatten, ReadLine, LinesHold, Items;
    if recs == [] {
      NothingFlat(r.base);
    } else {
      LinesHoldTail(lines, recs, r.pos);
      var t := After(Taken(lines, r), recs[0]);
      LinesHoldMore(lines, recs[1..], r.pos + 1);
      RecordsThen(lines, recs[1..], t.(pending := []));
      RecordStep(lines, recs[0], r, t);
      FlattenStep(recs, Taken(lines, r));
      var more := ReadAll(lines, Behind(lines, recs, r));
      ItemsAssociate(t.pending, Flatten(recs[1..], t.base), more.items);
    }
  }

  lemma ItemsAssociate(a: seq<Item>, b: seq<Item>, c: seq<Item>)
    ensures a + (b + c) == (a + b) + c
  {
  }

  lemma LinesHoldMore(lines: seq<string>, recs: seq<LineRecord>, pos: nat)
    requires LinesHold(lines, recs, pos)
    ensures recs != [] ==> pos < |lines|
  {
  }

  /** Reading on behind one record. */
  lemma RecordStep(lines: seq<string>, rec: LineRecord, r: Reader, t: Reader)
    requires !rec.EndLine? && r.pos < |lines| && r.good && !r.atEnd && r.pending == []
    requires ReadLine(lines[r.pos]) == Ok(rec) && t == After(Taken(lines, r), rec)
    ensures var s := t.(pending := []);
            ReadAll(lines, r) == Stream(t.pending + ReadAll(lines, s).items, ReadAll(lines, s).end)
  {
    assert NextRecord(lines, r).0 == t && NextRecord(lines, r).1.Ok?;
    ReadAllNext(lines, r);
    ReadAllPending(lines, t);
  }

  lemma FlattenStep(recs: seq<LineRecord>, r: Reader)
    requires recs != [] && !recs[0].EndLine? && r.pending == []
    ensures var s := After(r, recs[0]);
            s.pending + Flatten(recs[1..], s.base) == Flatten(recs, r.base)
  {
  }

  function RenderAll(recs: seq<LineRecord>, lower: bool): (lines: seq<string>)
    requires forall rec :: rec in recs ==> WellFormed(rec)
    ensures |lines| == |recs|
    ensures forall i :: 0 <= i < |recs| ==> lines[i] == Render(recs[i], lower)
  {
    seq(|recs|, i requires 0 <= i < |recs| => Render(recs[i], lower))
  }

  lemma RenderedHold(recs: seq<LineRecord>, lower: bool, more: seq<string>)
    requires forall rec :: rec in recs ==> WellFormed(rec) && !rec.EndLine?
    ensures LinesHold(RenderAll(recs, lower) + more, recs, 0)
  {
    var lines := RenderAll(recs, lower) + more;
    forall i | 0 <= i < |recs| ensures ReadLine(lines[0 + i]) == Ok(recs[i]) && !recs[i].EndLine? {
      RenderedIsRead(recs[i], lower);
    }
  }

  /** A file of rendered records delivers their bytes in order, and then its end, with a last line end or without. */
  lemma RenderedFileIsRead(recs: seq<LineRecord>, lower: bool, rest: seq<string>, ended: bool)
    requires forall rec :: rec in recs ==> WellFormed(rec) && !rec.EndLine?
    ensures ReadAll(RenderAll(recs, lower) + [Render(EndLine, lower)] + rest, Start(ended))
            == Stream(Flatten(recs, 0), FileEnd)
  {
    hide ReadAll, ReadLine, LinesHold;
    var more := [Render(EndLine, lower)] + rest;
    var lines := RenderAll(recs, lower) + more;
    assert lines == RenderAll(recs, lower) + [Render(EndLine, lower)] + rest;
    RenderedHold(recs, lower, more);
    RecordsThen(lines, recs, Start(ended));
    BehindState(lines, recs, Start(ended));
    RenderedIsRead(EndLine, lower);
    EndStep(lines, Behind(lines, recs, Start(ended)));
  }

  /**
   * A file cut between two lines delivers the bytes of the records that are left. Then reading raises an
   * exception, or is an error if the cut took the line end as well.
   */
  lemma CutFileIsRead(recs: seq<LineRecord>, lower: bool, ended: bool)
    requires forall rec :: rec in recs ==> WellFormed(rec) && !rec.EndLine?
    ensures ReadAll(RenderAll(recs, lower), Start(ended))
            == Stream(Flatten(recs, 0), if ended || recs == [] then Raised else Failed)
  {
    hide ReadAll, ReadLine, LinesHold;
    var lines := RenderAll(recs, lower);
    assert lines + [] == lines;
    RenderedHold(recs, lower, []);
    RecordsThen(lines, recs, Start(ended));
    BehindState(lines, recs, Start(ended));
    CutStep(lines, Behind(lines, recs, Start(ended)));
  }

  /** The reader object. */
  class McsRead {
    const lines: seq<string>
    const ended: bool
    const promData: array<Byte>
    const promAddr: array<Word>
    var pos: nat
    var good: bool
    var promPntr: nat
    var promBaseAddr: Word
    var endOfFile: bool

    ghost predicate Valid()
      reads this
    {
      promData.Length == 16 && promAddr.Length == 16 && promData as object != promAddr && promPntr <= 16
    }

    ghost function Pending(): seq<Item>
      requires Valid()
      reads this, promData, promAddr
    {
      Paired(promAddr[promPntr..], promData[promPntr..])
    }

    ghost function State(): Reader
      requires Valid()
      reads this, promData, promAddr
    {
      Reader(ended, pos, good, promBaseAddr, endOfFile, Pending())
    }

    constructor (file: seq<string>, lastEnded: bool)
      ensures Valid() && lines == file && ended == lastEnded && State() == Start(ended)
      ensures fresh(promData) && fresh(promAddr)
    {
      lines, ended := file, lastEnded;
      promData := new Byte[16];
      promAddr := new Word[16];
      pos, good, promPntr, promBaseAddr, endOfFile := 0, true, 16, 0, false;
    }

    /** Read the data fields and add them up. */
    method Collect(line: string, n: nat) returns (out: Read<(seq<Byte>, nat)>)
      ensures out == match DataFields(line, n)
                     case Ok(data) => Ok((data, Sum(data)))
                     case Error => Error
                     case OutOfRange => OutOfRange
                     case Unspecified => Unspecified
    {
      var data: seq<Byte>, summing := [], 0;
      for i := 0 to n
        invariant DataFields(line, i) == Ok(data) && summing == Sum(data)
      {
        var f := Field(line, 9 + 2 * i);
        if !f.Ok? {
          DataFieldsStop(line, i, n);
          match f {
            case OutOfRange => return OutOfRange;
            case Unspecified => return Unspecified;
          }
        }
        assert (data + [f.value])[..|data|] == data;
        data, summing := data + [f.value], summing + f.value as int;
      }
      out := Ok((data, summing));
    }

    static lemma {:induction false} DataFieldsStop(line: string, i: nat, n: nat)
      requires i < n && DataFields(line, i).Ok? && !Field(line, 9 + 2 * i).Ok?
      ensures DataFields(line, n) == Field(line, 9 + 2 * i).PropagateFailure<seq<Byte>>()
    {
      if i + 1 < n { DataFieldsStop(line, i, n - 1); }
    }

    method Next() returns (status: Read<int>)
      requires Valid()
      modifies this, promData, promAddr
      ensures Valid() && (State(), status) == NextRecord(lines, old(State()))
    {
      if !good { return Error; }
      if pos >= |lines| {
        good := false;
        return OutOfRange;
      }
      var line := lines[pos];
      pos := pos + 1;
      good := ended || pos < |lines|;
      status := Digest(line);
    }

    /** The part of `next` that looks at a line. */
    method Digest(line: string) returns (status: Read<int>)
      requires Valid()
      modifies this, promData, promAddr
      ensures Valid() && (State(), status) == Digested(old(State()), ReadLine(line))
    {
      if |line| == 0 { return OutOfRange; }
      if line[0] != ':' { return Error; }
      var byteCnt :- Field(line, 1);
      var high :- Field(line, 3);
      var low :- Field(line, 5);
      var recordType :- Field(line, 7);
      var check :- Field(line, 2 * (byteCnt as int) + 9);
      if byteCnt > 16 { return Error; }
      if recordType == DATA_RECORD {
        status := DigestData(line, byteCnt, high, low, check);
      } else if recordType == END_OF_FILE_RECORD {
        if (byteCnt as int + high as int + low as int + recordType as int + check as int) % 0x100 != 0 { return Error; }
        endOfFile := true;
        return Ok(END_OF_FILE_RECORD);
      } else if recordType == EXTENDED_LINEAR_ADDRESS_RECORD {
        status := DigestBase(line, byteCnt, high, low, check);
      } else {
        return Error;
      }
    }

    method DigestData(line: string, byteCnt: nat, high: nat, low: nat, check: nat) returns (status: Read<int>)
      requires Valid() && byteCnt <= 16
      modifies this, promData, promAddr
      ensures Valid()
      ensures (State(), status)
              == Digested(old(State()), Judge(byteCnt, high, low, DATA_RECORD, check, DataFields(line, byteCnt)))
    {
      if byteCnt == 0 { return Error; }
      var got := Collect(line, byteCnt);
      var both :- got;
      var data, sum := both.0, both.1;
      if (byteCnt + high + low + DATA_RECORD + sum + check) % 0x100 != 0 { return Error; }
      Keep(0x100 * high + low, data);
      return Ok(DATA_RECORD);
    }

    method DigestBase(line: string, byteCnt: nat, high: nat, low: nat, check: nat) returns (status: Read<int>)
      requires Valid() && byteCnt <= 16
      modifies this`promBaseAddr
      ensures Valid()
      ensures (State(), status)
              == Digested(old(State()), Judge(byteCnt, high, low, EXTENDED_LINEAR_ADDRESS_RECORD, check,
                                              DataFields(line, byteCnt)))
    {
      if byteCnt != 2 { return Error; }
      if high != 0 || low != 0 { return Error; }
      var got := Collect(line, byteCnt);
      var both :- got;
      var data, sum := both.0, both.1;
      if (byteCnt + high + low + EXTENDED_LINEAR_ADDRESS_RECORD + sum + check) % 0x100 != 0 { return Error; }
      promBaseAddr := Wrap((0x100 * (data[0] as int) + data[1] as int) * 0x1_0000);
      return Ok(EXTENDED_LINEAR_ADDRESS_RECORD);
    }

    /** Save data and addresses at the end of the buffers. */
    method Keep(addr: nat, data: seq<Byte>)
      requires Valid() && 1 <= |data| <= 16
      modifies this`promPntr, promData, promAddr
      ensures Valid() && Pending() == Items(promBaseAddr + addr, data)
    {
      promPntr := 16 - |data|;
      for i := 0 to |data|
        invariant promPntr == 16 - |data|
        invariant forall j :: 0 <= j < i ==>
                    promData[promPntr + j] == data[j] && promAddr[promPntr + j] == Wrap(promBaseAddr + addr + j)
      {
        promData[promPntr + i] := data[i];
        promAddr[promPntr + i] := Wrap(promBaseAddr + addr + i);
      }
    }

    /** Take lines until one has data. */
    method Refill() returns (more: bool, end: ReadResult)
      requires Valid() && promPntr == 16
      modifies this, promData, promAddr
      ensures Valid()
      ensures more ==> promPntr < 16 && ReadByte(lines, State()) == ReadByte(lines, old(State()))
      ensures !more ==> (State(), end) == ReadByte(lines, old(State()))
    {
      more, end := false, FileEnd;
      while true
        invariant Valid() && promPntr == 16
        invariant ReadByte(lines, State()) == ReadByte(lines, old(State()))
        decreases if pos < |lines| then |lines| - pos else 0
      {
        var status := Ok(0);
        if !endOfFile {
          status := Next();
        }
        if endOfFile { return false, FileEnd; }
        match status {
          case Error => return false, Failed;
          case OutOfRange => return false, Raised;
          case Unspecified => return false, Undetermined;
          case Ok(kind) => if kind == DATA_RECORD { return true, FileEnd; }
        }
      }
    }

    method Deliver() returns (item: Item)
      requires Valid() && promPntr < 16
      modifies this`promPntr
      ensures Valid() && (State(), Delivered(item)) == ReadByte(lines, old(State()))
    {
      ghost var before := Pending();
      assert before[0] == Item(promAddr[promPntr], promData[promPntr]);
      item := Item(promAddr[promPntr], promData[promPntr]);
      promPntr := promPntr + 1;
      assert Pending() == before[1..];
    }

    method Read() returns (out: ReadResult)
      requires Valid()
      modifies this, promData, promAddr
      ensures Valid() && (State(), out) == ReadByte(lines, old(State()))
    {
      if promPntr == 16 {
        var more, end := Refill();
        if !more { return end; }
      }
      var item := Deliver();
      out := Delivered(item);
    }
  }
}
