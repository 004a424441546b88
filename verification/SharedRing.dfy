/**
 * Records in shared memory: a ring of rows that the writer fills without waiting for anybody,
 * and a reader that may fall behind. The writer's single assignments interleave with whole
 * calls of the reader. Memory is a row of bytes, the buffer first and behind it whatever else
 * a call can reach; the counters of records are unbounded here.
 */
module SharedRing {
  import opened Options
  import opened Words

  const ROWS := 20              // DATA_BUFF_CNT
  const ROW_SIZE := 2097152     // DATA_BUFF_SIZE
  const ROOM := ROW_SIZE - 4    // behind the flag
  const END := ROWS * ROW_SIZE  // of the buffer

  datatype Entry = Entry(flag: Word, data: seq<Byte>)

  predicate Memory(mem: seq<Byte>) {
    |mem| >= END + TWO_32
  }

  function RowAt(mem: seq<Byte>, i: nat): (row: seq<Byte>)
    requires Memory(mem) && i < ROWS
    ensures |row| == ROW_SIZE
  {
    mem[i * ROW_SIZE..i * ROW_SIZE + ROW_SIZE]
  }

  /** The bytes of an entry: the flag word, and the data behind it. */
  function Bytes(e: Entry): seq<Byte> {
    WordBytes(e.flag) + e.data
  }

  predicate Holds(row: seq<Byte>, e: Entry) {
    Bytes(e) <= row
  }

  function FlagOf(row: seq<Byte>): Word
    requires |row| == ROW_SIZE
  {
    BytesWord(row[..4])
  }

  /** The flag and the data of the entry in a row. */
  lemma HeldIsRead(row: seq<Byte>, e: Entry)
    requires |row| == ROW_SIZE && Holds(row, e)
    ensures FlagOf(row) == e.flag && row[4..4 + |e.data|] == e.data
  {
    assert row[..4] == Bytes(e)[..4] == WordBytes(e.flag);
    WordBytesInverse(e.flag);
    assert row[4..4 + |e.data|] == Bytes(e)[4..];
  }

  lemma FlagBytes(row: seq<Byte>, e: Entry)
    requires |row| == ROW_SIZE
    ensures Holds(row, e) ==> row[..4] == WordBytes(e.flag)
  {
    assert Bytes(e)[..4] == WordBytes(e.flag);
  }

  /** Storing inside row `i` changes that row alone. */
  lemma StoreInRow(mem: seq<Byte>, i: nat, q: nat, bs: seq<Byte>)
    requires Memory(mem) && i < ROWS && q + |bs| <= ROW_SIZE
    ensures RowAt(Overlay(mem, i * ROW_SIZE + q, bs), i) == RowAt(mem, i)[..q] + bs + RowAt(mem, i)[q + |bs|..]
    ensures forall j :: 0 <= j < ROWS && j != i ==> RowAt(Overlay(mem, i * ROW_SIZE + q, bs), j) == RowAt(mem, j)
  {
    hide Overlay;
    var m, base := Overlay(mem, i * ROW_SIZE + q, bs), i * ROW_SIZE;
    RowHere(mem, base, q, bs);
    forall j | 0 <= j < ROWS && j != i ensures RowAt(m, j) == RowAt(mem, j) {
      if j < i { RowBefore(mem, base + q, bs, j * ROW_SIZE); } else { RowBehind(mem, base + q, bs, j * ROW_SIZE); }
    }
  }

  lemma RowHere(mem: seq<Byte>, base: nat, q: nat, bs: seq<Byte>)
    requires base + ROW_SIZE <= |mem| && q + |bs| <= ROW_SIZE
    ensures var row := mem[base..base + ROW_SIZE];
            Overlay(mem, base + q, bs)[base..base + ROW_SIZE] == row[..q] + bs + row[q + |bs|..]
  {
    var row, now := mem[base..base + ROW_SIZE], Overlay(mem, base + q, bs)[base..base + ROW_SIZE];
    forall k | 0 <= k < ROW_SIZE ensures now[k] == (row[..q] + bs + row[q + |bs|..])[k] {
      assert now[k] == Overlay(mem, base + q, bs)[base + k];
    }
  }

  lemma RowBefore(mem: seq<Byte>, p: nat, bs: seq<Byte>, lo: nat)
    requires p + |bs| <= |mem| && lo + ROW_SIZE <= p
    ensures Overlay(mem, p, bs)[lo..lo + ROW_SIZE] == mem[lo..lo + ROW_SIZE]
  {
  }

  lemma RowBehind(mem: seq<Byte>, p: nat, bs: seq<Byte>, lo: nat)
    requires p + |bs| <= lo && lo + ROW_SIZE <= |mem|
    ensures Overlay(mem, p, bs)[lo..lo + ROW_SIZE] == mem[lo..lo + ROW_SIZE]
  {
  }

  /** The length check of the writer, in 32-bit arithmetic. */
  predicate Accepts(count: Word) {
    Wrap(count + 1) < ROW_SIZE
  }

  datatype Ring = Ring(wrAddr: nat, wrCount: nat, wrAddrLast: nat, wrCountLast: nat, mem: seq<Byte>)

  /** Where the writer is inside `dataSharedWrite`. */
  datatype Writer =
    | Idle
    | Noted(entry: Entry)              // the `Last` fields are set
    | Copying(entry: Entry, n: nat)    // the flag and `n` bytes are stored
    | Counted
    | Moved

  datatype Reader = Reader(rdAddr: nat, rdCount: nat)

  datatype System = System(
    ring: Ring,
    writer: Writer,
    reader: Reader,
    written: seq<Entry>,      // history: entries counted by the writer
    returned: seq<nat>,       // history: sequence numbers of the entries the reader was given
    got: seq<seq<Byte>>       // history: the rows it was given, as they were then
  )

  datatype Action =
    | Note(entry: Entry)
    | StoreFlag
    | CopyByte
    | Count
    | Move
    | Turn
    | Read

  function Slot(k: nat): (i: nat)
    ensures i < ROWS
  {
    k % ROWS
  }

  lemma NextRow(k: nat)
    ensures Slot(k + 1) == if Slot(k) + 1 == ROWS then 0 else Slot(k) + 1
  {
  }

  lemma SlotsDiffer(a: nat, b: nat)
    requires a < b < a + ROWS
    ensures Slot(a) != Slot(b)
  {
  }

  /** The reader has nothing to go by, is ahead, or is too far behind. */
  predicate Adjusts(r: Ring, d: Reader) {
    (d.rdCount == 0 && r.wrCount != 0) || d.rdCount > r.wrCount || r.wrCount - d.rdCount >= ROWS / 2
  }

  function Adjusted(r: Ring, d: Reader): Reader {
    if Adjusts(r, d) then Reader(r.wrAddrLast, r.wrCountLast) else d
  }

  function Advanced(d: Reader): Reader {
    Reader(if d.rdAddr + 1 == ROWS then 0 else d.rdAddr + 1, d.rdCount + 1)
  }

  predicate Enabled(s: System, a: Action) {
    && Memory(s.ring.mem)
    && match a
       case Note(e) => s.writer == Idle && |e.data| < TWO_32 && Accepts(|e.data|)
       case StoreFlag => s.writer.Noted? && s.ring.wrAddr < ROWS
       case CopyByte =>
         && s.writer.Copying? && s.writer.n < |s.writer.entry.data| < TWO_32 && s.ring.wrAddr < ROWS
       case Count => s.writer.Copying? && s.writer.n == |s.writer.entry.data|
       case Move => s.writer == Counted
       case Turn => s.writer == Moved
       case Read =>
         var d := Adjusted(s.ring, s.reader);
         d.rdCount != s.ring.wrCount ==> d.rdAddr < ROWS
  }

  /** What the writer's stores do to the memory. */
  function Stored(s: System, a: Action): (m: seq<Byte>)
    requires Enabled(s, a)
    ensures |m| == |s.ring.mem|
  {
    var r := s.ring;
    match a
    case StoreFlag => Overlay(r.mem, r.wrAddr * ROW_SIZE, WordBytes(s.writer.entry.flag))
    case CopyByte => Overlay(r.mem, r.wrAddr * ROW_SIZE + (4 + s.writer.n), [s.writer.entry.data[s.writer.n]])
    case _ => r.mem
  }

  function Next(s: System, a: Action): System
    requires Enabled(s, a)
  {
    var r := s.ring.(mem := Stored(s, a));
    match a
    case Note(e) => s.(ring := r.(wrAddrLast := r.wrAddr, wrCountLast := r.wrCount), writer := Noted(e))
    case StoreFlag => s.(ring := r, writer := Copying(s.writer.entry, 0))
    case CopyByte => s.(ring := r, writer := Copying(s.writer.entry, s.writer.n + 1))
    case Count => s.(ring := r.(wrCount := r.wrCount + 1), writer := Counted, written := s.written + [s.writer.entry])
    case Move => s.(ring := r.(wrAddr := r.wrAddr + 1), writer := Moved)
    case Turn => s.(ring := if r.wrAddr == ROWS then r.(wrAddr := 0) else r, writer := Idle)
    case Read =>
      var d := Adjusted(r, s.reader);
      if d.rdCount == r.wrCount then s.(reader := d)
      else
        s.(reader := Advanced(d), returned := s.returned + [d.rdCount], got := s.got + [RowAt(r.mem, d.rdAddr)])
  }

  /** The caller's guard: there is room for the entry. */
  predicate Roomy(a: Action) {
    a.Note? ==> |a.entry.data| <= ROOM
  }

  /* ----- Invariants ----- */

  /** The entry whose row may be in the middle of being written. */
  predicate Touching(s: System, k: nat) {
    (s.writer.Noted? || s.writer.Copying?) && k + ROWS == s.ring.wrCount
  }

  ghost predicate RowsHold(s: System) {
    && Memory(s.ring.mem) && |s.written| == s.ring.wrCount
    && (forall k :: 0 <= k < |s.written| <= k + ROWS && !Touching(s, k) ==>
          Holds(RowAt(s.ring.mem, Slot(k)), s.written[k]))
  }

  predicate WriterAt(s: System) {
    var r := s.ring;
    match s.writer
    case Idle => r.wrAddr == Slot(r.wrCount) && LastAt(r)
    case Noted(e) =>
      r.wrAddr == Slot(r.wrCount) && r.wrCountLast == r.wrCount && r.wrAddrLast == r.wrAddr && |e.data| <= ROOM
    case Copying(e, n) =>
      && r.wrAddr == Slot(r.wrCount) && r.wrCountLast == r.wrCount && r.wrAddrLast == r.wrAddr
      && n <= |e.data| <= ROOM && Memory(r.mem)
      && WordBytes(e.flag) + e.data[..n] <= RowAt(r.mem, r.wrAddr)
    case Counted => r.wrCount > 0 && r.wrAddr == Slot(r.wrCount - 1) && LastAt(r)
    case Moved => r.wrCount > 0 && r.wrAddr == Slot(r.wrCount - 1) + 1 && LastAt(r)
  }

  /** Between two writes the `Last` fields point at the newest entry. */
  predicate LastAt(r: Ring) {
    if r.wrCount == 0 then r.wrCountLast == 0 && r.wrAddrLast == 0
    else r.wrCountLast == r.wrCount - 1 && r.wrAddrLast == Slot(r.wrCount - 1)
  }

  predicate ReaderAt(s: System) {
    && s.reader.rdCount <= s.ring.wrCount && s.reader.rdAddr == Slot(s.reader.rdCount)
    && |s.got| == |s.returned|
    && (s.returned != [] ==> s.reader.rdCount > 0)
  }

  /** What the reader was given: complete entries, each once, in order. */
  ghost predicate Given(s: System) {
    && |s.got| == |s.returned|
    && (forall i :: 0 <= i < |s.returned| ==> s.returned[i] < |s.written| && s.returned[i] < s.reader.rdCount)
    && (forall i, j :: 0 <= i < j < |s.returned| ==> s.returned[i] < s.returned[j])
    && (forall i :: 0 <= i < |s.got| ==> Holds(s.got[i], s.written[s.returned[i]]))
  }

  ghost predicate Inv(s: System) {
    RowsHold(s) && WriterAt(s) && ReaderAt(s) && Given(s)
  }

  function Empty(mem: seq<Byte>): System {
    System(Ring(0, 0, 0, 0, mem), Idle, Reader(0, 0), [], [], [])
  }

  /* ----- The reader ----- */

  /** Where a reader call looks: at one of the newest nine entries, never at the row being written. */
  lemma ReadPlace(s: System)
    requires WriterAt(s) && ReaderAt(s)
    ensures var d := Adjusted(s.ring, s.reader);
            && d.rdCount <= s.ring.wrCount < d.rdCount + ROWS / 2 && d.rdAddr == Slot(d.rdCount)
            && (d.rdCount != s.ring.wrCount && (s.writer.Noted? || s.writer.Copying?) ==> d.rdAddr != s.ring.wrAddr)
            && (d.rdCount == 0 ==> s.ring.wrCount <= 1)
            && d.rdCount >= s.reader.rdCount
            && (s.reader.rdCount == 0 && s.ring.wrCount == 0 ==> d == s.reader)
  {
    var d := Adjusted(s.ring, s.reader);
    assert Slot(0) == 0;
    if d.rdCount < s.ring.wrCount { SlotsDiffer(d.rdCount, s.ring.wrCount); }
  }

  /* ----- Every step keeps the invariant ----- */

  /** A store of the writer stays in its own row. */
  lemma StoresInRow(s: System, a: Action)
    requires Enabled(s, a) && WriterAt(s) && (a.StoreFlag? || a.CopyByte?)
    ensures forall j :: 0 <= j < ROWS && j != s.ring.wrAddr ==> RowAt(Stored(s, a), j) == RowAt(s.ring.mem, j)
  {
    if a.StoreFlag? {
      StoreInRow(s.ring.mem, s.ring.wrAddr, 0, WordBytes(s.writer.entry.flag));
    } else {
      StoreInRow(s.ring.mem, s.ring.wrAddr, 4 + s.writer.n, [s.writer.entry.data[s.writer.n]]);
    }
  }

  /** Storing into the row of the next entry leaves the complete ones alone. */
  lemma StoreStep(s: System, a: Action)
    requires Enabled(s, a) && RowsHold(s) && WriterAt(s) && (a.StoreFlag? || a.CopyByte?)
    ensures RowsHold(Next(s, a))
  {
    hide RowAt, Holds, Stored;
    StoresInRow(s, a);
    var t := Next(s, a);
    forall k | 0 <= k < |t.written| <= k + ROWS && !Touching(t, k)
      ensures Holds(RowAt(t.ring.mem, Slot(k)), t.written[k])
    {
      assert !Touching(s, k);
      SlotsDiffer(k, s.ring.wrCount);
    }
  }

  /** The entry just counted is complete in its row. */
  lemma CountStep(s: System)
    requires Enabled(s, Count) && RowsHold(s) && WriterAt(s)
    ensures RowsHold(Next(s, Count))
  {
    hide RowAt;
    var t, e := Next(s, Count), s.writer.entry;
    assert t.ring.mem == s.ring.mem && e.data[..|e.data|] == e.data;
    forall k | 0 <= k < |t.written| <= k + ROWS
      ensures Holds(RowAt(t.ring.mem, Slot(k)), t.written[k])
    {
      if k < |s.written| { assert !Touching(s, k) && t.written[k] == s.written[k]; }
    }
  }

  lemma RowsStep(s: System, a: Action)
    requires Enabled(s, a) && RowsHold(s) && WriterAt(s)
    ensures RowsHold(Next(s, a))
  {
    hide RowAt, Holds;
    if a.StoreFlag? || a.CopyByte? {
      StoreStep(s, a);
    } else if a.Count? {
      CountStep(s);
    }
  }

  /** One more byte of the entry stands in its row. */
  lemma CopyStep(s: System)
    requires Enabled(s, CopyByte) && WriterAt(s)
    ensures WriterAt(Next(s, CopyByte))
  {
    hide Overlay, WordBytes;
    var e, n := s.writer.entry, s.writer.n;
    StoreInRow(s.ring.mem, s.ring.wrAddr, 4 + n, [e.data[n]]);
    OneMoreByte(RowAt(s.ring.mem, s.ring.wrAddr), WordBytes(e.flag), e.data, n);
  }

  lemma OneMoreByte(row: seq<Byte>, flag: seq<Byte>, data: seq<Byte>, n: nat)
    requires |flag| == 4 && n < |data| && 4 + n < |row| && flag + data[..n] <= row
    ensures flag + data[..n + 1] <= row[..4 + n] + [data[n]] + row[4 + n + 1..]
  {
    assert data[..n + 1] == data[..n] + [data[n]];
    assert row[..4 + n] == flag + data[..n];
  }

  lemma FlagStep(s: System)
    requires Enabled(s, StoreFlag) && WriterAt(s)
    ensures WriterAt(Next(s, StoreFlag))
  {
    var flag := WordBytes(s.writer.entry.flag);
    StoreInRow(s.ring.mem, s.ring.wrAddr, 0, flag);
    assert s.writer.entry.data[..0] == [] && flag + [] == flag;
  }

  lemma WriterStep(s: System, a: Action)
    requires Enabled(s, a) && Roomy(a) && RowsHold(s) && WriterAt(s)
    ensures WriterAt(Next(s, a))
  {
    hide RowAt, Overlay, Accepts;
    match a
    case CopyByte => CopyStep(s);
    case StoreFlag => FlagStep(s);
    case Turn => NextRow(s.ring.wrCount - 1);
    case _ =>
  }

  lemma ReaderStep(s: System, a: Action)
    requires Enabled(s, a) && WriterAt(s) && ReaderAt(s)
    ensures ReaderAt(Next(s, a))
  {
    hide RowAt, Stored;
    if a.Read? {
      ReadPlace(s);
      NextRow(Adjusted(s.ring, s.reader).rdCount);
    }
  }

  lemma GivenStep(s: System, a: Action)
    requires Enabled(s, a) && Inv(s)
    ensures Given(Next(s, a))
  {
    hide RowAt, Holds;
    if a.Read? {
      var d := Adjusted(s.ring, s.reader);
      ReadPlace(s);
      if d.rdCount != s.ring.wrCount {
        assert Holds(RowAt(s.ring.mem, Slot(d.rdCount)), s.written[d.rdCount]);
      }
    }
  }

  lemma InvStep(s: System, a: Action)
    requires Enabled(s, a) && Roomy(a) && Inv(s)
    ensures Inv(Next(s, a))
  {
    hide RowsHold, WriterAt, ReaderAt, Given, Next, Enabled, Roomy;
    RowsStep(s, a);
    WriterStep(s, a);
    ReaderStep(s, a);
    GivenStep(s, a);
  }

  predicate Runs(s: System, acts: seq<Action>)
    decreases |acts|
  {
    acts == [] || (Enabled(s, acts[0]) && Runs(Next(s, acts[0]), acts[1..]))
  }

  function Run(s: System, acts: seq<Action>): System
    requires Runs(s, acts)
    decreases |acts|
  {
    if acts == [] then s else Run(Next(s, acts[0]), acts[1..])
  }

  lemma {:induction false} RunKeepsInv(s: System, acts: seq<Action>)
    requires Runs(s, acts) && Inv(s) && forall a :: a in acts ==> Roomy(a)
    ensures Inv(Run(s, acts))
    decreases |acts|
  {
    hide Inv, Next, Enabled, Roomy;
    if acts != [] {
      InvStep(s, acts[0]);
      RunKeepsInv(Next(s, acts[0]), acts[1..]);
    }
  }

  lemma StepWritten(s: System, a: Action)
    requires Enabled(s, a)
    ensures s.written <= Next(s, a).written
  {
  }

  lemma {:induction false} WrittenGrows(s: System, acts: seq<Action>)
    requires Runs(s, acts)
    ensures s.written <= Run(s, acts).written
    decreases |acts|
  {
    hide Next, Enabled;
    if acts != [] {
      StepWritten(s, acts[0]);
      WrittenGrows(Next(s, acts[0]), acts[1..]);
    }
  }

  /* ----- What the reader can rely on ----- */

  /** A reader starting at nothing is only ever given complete entries, in strictly increasing order. */
  lemma GivenInOrder(mem: seq<Byte>, acts: seq<Action>)
    requires Memory(mem) && Runs(Empty(mem), acts) && forall a :: a in acts ==> Roomy(a)
    ensures var t := Run(Empty(mem), acts);
            && |t.got| == |t.returned|
            && (forall i :: 0 <= i < |t.returned| ==>
                  t.returned[i] < |t.written| && Holds(t.got[i], t.written[t.returned[i]]))
            && (forall i, j :: 0 <= i < j < |t.returned| ==> t.returned[i] < t.returned[j])
  {
    assert Slot(0) == 0;
    RunKeepsInv(Empty(mem), acts);
  }

  /** What a call gives the reader: the entry `k`, complete as it was written. */
  ghost predicate Gives(s: System, t: System, k: nat) {
    && k < |s.written| && t.returned == s.returned + [k] && |t.got| == |s.got| + 1
    && t.got[..|s.got|] == s.got && Holds(t.got[|s.got|], s.written[k])
    && t.reader == Reader(Slot(k + 1), k + 1)
  }

  /**
   * A reader that has begun and is fewer than ten entries behind is given the very next one, or nothing if
   * there is none. Any other one is set to the newest entry and given that, but for a write under way: then it
   * is set to the entry being written and given nothing.
   */
  lemma NextIsGiven(s: System)
    requires Inv(s)
    ensures Enabled(s, Read)
    ensures var t, count, next := Next(s, Read), s.ring.wrCount, s.reader.rdCount;
            if count == next then t == s
            else if 0 < next && count < next + 10 then Gives(s, t, next)
            else if s.writer.Noted? || s.writer.Copying? then t == s.(reader := Reader(Slot(count), count))
            else Gives(s, t, count - 1)
  {
    hide RowAt, Holds;
    ReadPlace(s);
    var d := Adjusted(s.ring, s.reader);
    NextRow(d.rdCount);
    if d.rdCount != s.ring.wrCount {
      assert Holds(RowAt(s.ring.mem, Slot(d.rdCount)), s.written[d.rdCount]);
    }
  }

  /** The entries of the calls of the writer in a run. */
  function Entries(acts: seq<Action>): seq<Entry>
    decreases |acts|
  {
    if acts == [] then [] else (if acts[0].Note? then [acts[0].entry] else []) + Entries(acts[1..])
  }

  /** The entry of a call that has not been counted yet. */
  function UnderWay(w: Writer): seq<Entry> {
    if w.Noted? || w.Copying? then [w.entry] else []
  }

  /** What is counted as written are the entries of the calls, in order, each when its call gets that far. */
  lemma {:induction false} EntriesAreWritten(s: System, acts: seq<Action>)
    requires Runs(s, acts)
    ensures Run(s, acts).written + UnderWay(Run(s, acts).writer) == s.written + UnderWay(s.writer) + Entries(acts)
    decreases |acts|
  {
    hide Enabled, Next;
    if acts == [] {
      assert s.written + UnderWay(s.writer) + [] == s.written + UnderWay(s.writer);
    } else {
      var now := if acts[0].Note? then [acts[0].entry] else [];
      WrittenStep(s, acts[0]);
      EntriesAreWritten(Next(s, acts[0]), acts[1..]);
      assert s.written + UnderWay(s.writer) + now + Entries(acts[1..])
             == s.written + UnderWay(s.writer) + (now + Entries(acts[1..]));
    }
  }

  lemma WrittenStep(s: System, a: Action)
    requires Enabled(s, a)
    ensures var t := Next(s, a);
            t.written + UnderWay(t.writer)
            == s.written + UnderWay(s.writer) + if a.Note? then [a.entry] else []
  {
    hide RowAt, Stored;
  }

  /**
   * The row behind the pointer that a call returns keeps its entry through eleven further writes,
   * until the twelfth one begins.
   */
  lemma EntrySurvives(s: System, acts: seq<Action>)
    requires Inv(s) && Runs(s, [Read] + acts) && forall a :: a in acts ==> Roomy(a)
    requires Adjusted(s.ring, s.reader).rdCount != s.ring.wrCount
    requires var t := Run(s, [Read] + acts);
             && t.ring.wrCount <= s.ring.wrCount + 11
             && (t.ring.wrCount == s.ring.wrCount + 11 ==> !t.writer.Noted? && !t.writer.Copying?)
    ensures var t, k := Run(s, [Read] + acts), Adjusted(s.ring, s.reader).rdCount;
            && k < |s.written| && s.written <= t.written && Memory(t.ring.mem)
            && Holds(RowAt(t.ring.mem, Slot(k)), s.written[k])
  {
    hide Next, Enabled, Holds;
    var t, k := Run(s, [Read] + acts), Adjusted(s.ring, s.reader).rdCount;
    ReadPlace(s);
    RunKeepsInv(s, [Read] + acts);
    WrittenGrows(s, [Read] + acts);
    StillHeld(t, k);
  }

  lemma StillHeld(t: System, k: nat)
    requires RowsHold(t) && k < |t.written| <= k + ROWS && !Touching(t, k)
    ensures Holds(RowAt(t.ring.mem, Slot(k)), t.written[k])
  {
  }

  /** The twelfth write takes the row of an entry that was nine behind. */
  lemma TwelfthWriteOverwrites(s: System, k: nat)
    requires Inv(s) && s.writer.Noted? && s.ring.wrCount == k + 9 + 11
    requires s.writer.entry.flag != s.written[k].flag
    ensures Enabled(s, StoreFlag)
    ensures !Holds(RowAt(Next(s, StoreFlag).ring.mem, Slot(k)), s.written[k])
  {
    hide RowAt, Holds, Stored, WordBytes, Given, ReaderAt;
    SameSlot(k);
    FlagInRow(s);
    WordBytesInverse(s.writer.entry.flag);
    WordBytesInverse(s.written[k].flag);
    FlagBytes(RowAt(Next(s, StoreFlag).ring.mem, Slot(k)), s.written[k]);
  }

  lemma SameSlot(k: nat)
    ensures Slot(k + ROWS) == Slot(k)
  {
  }

  lemma FlagInRow(s: System)
    requires Enabled(s, StoreFlag)
    ensures RowAt(Next(s, StoreFlag).ring.mem, s.ring.wrAddr)[..4] == WordBytes(s.writer.entry.flag)
  {
    StoreInRow(s.ring.mem, s.ring.wrAddr, 0, WordBytes(s.writer.entry.flag));
  }

  /* ----- Whole calls ----- */

  /** The ring is ready for a call. */
  predicate Ready(r: Ring) {
    Memory(r.mem) && r.wrAddr < ROWS
  }

  /** One whole call of the writer: too long an entry is refused. */
  function Wrote(r: Ring, e: Entry): (t: Ring)
    requires Ready(r) && |e.data| < TWO_32
    ensures Ready(t) && |t.mem| == |r.mem|
  {
    if !Accepts(|e.data|) then r
    else
      Ring(if r.wrAddr + 1 == ROWS then 0 else r.wrAddr + 1, r.wrCount + 1, r.wrAddr, r.wrCount,
           Overlay(r.mem, r.wrAddr * ROW_SIZE, Bytes(e)))
  }

  /** A call with an entry there is room for: all of it stands in the next row, and nothing else has changed. */
  lemma WroteThere(r: Ring, e: Entry)
    requires Ready(r) && |e.data| <= ROOM
    ensures var t := Wrote(r, e);
            && Memory(t.mem) && Holds(RowAt(t.mem, r.wrAddr), e) && OwnRow(r.mem, t.mem, r.wrAddr)
            && t.wrCount == r.wrCount + 1 && t.wrAddr == (r.wrAddr + 1) % 20
            && t.wrCountLast == r.wrCount && t.wrAddrLast == r.wrAddr
  {
    hide RowAt, Overlay, WordBytes;
    AcceptedSizes(|e.data|);
    StoreInRow(r.mem, r.wrAddr, 0, Bytes(e));
    NextSlot(r.wrAddr, 20);
    FittingStaysInRow(r, e);
  }

  /** A reader that is up to date, or at the very beginning, reads what a call has just written. */
  lemma WrittenIsRead(r: Ring, e: Entry, d: Reader)
    requires Ready(r) && |e.data| <= ROOM && d == Reader(r.wrAddr, r.wrCount)
    ensures var t := Wrote(r, e);
            && Adjusted(t, d) == d && d.rdCount != t.wrCount
            && FlagOf(RowAt(t.mem, d.rdAddr)) == e.flag && RowAt(t.mem, d.rdAddr)[4..4 + |e.data|] == e.data
            && Advanced(d) == Reader(t.wrAddr, t.wrCount)
  {
    hide RowAt, Overlay, Holds;
    WroteThere(r, e);
    NextSlot(r.wrAddr, 20);
    HeldIsRead(RowAt(Wrote(r, e).mem, r.wrAddr), e);
  }

  function Copies(n: nat): seq<Action> {
    if n == 0 then [] else [CopyByte] + Copies(n - 1)
  }

  /** All data of the entry stored. */
  function Filled(s: System): System
    requires s.writer.Copying? && s.writer.n <= |s.writer.entry.data| < TWO_32 && Ready(s.ring)
  {
    var e, n := s.writer.entry, s.writer.n;
    s.(ring := s.ring.(mem := Overlay(s.ring.mem, s.ring.wrAddr * ROW_SIZE + (4 + n), e.data[n..])),
       writer := Copying(e, |e.data|))
  }

  lemma {:induction false} CopyRest(s: System)
    requires s.writer.Copying? && s.writer.n <= |s.writer.entry.data| < TWO_32 && Ready(s.ring)
    ensures var acts := Copies(|s.writer.entry.data| - s.writer.n); Runs(s, acts) && Run(s, acts) == Filled(s)
    decreases |s.writer.entry.data| - s.writer.n
  {
    hide Overlay;
    var e, n, p := s.writer.entry, s.writer.n, s.ring.wrAddr * ROW_SIZE;
    if n == |e.data| {
      NoOverlay(s.ring.mem, p + (4 + n), e.data[n..]);
    } else {
      OverlayTwice(s.ring.mem, p + (4 + n), [e.data[n]], e.data[n + 1..]);
      assert e.data[n..] == [e.data[n]] + e.data[n + 1..];
      CopyRest(Next(s, CopyByte));
      assert ([CopyByte] + Copies(|e.data| - n - 1))[1..] == Copies(|e.data| - n - 1);
    }
  }

  /** The writer's single assignments add up to one whole call. */
  lemma WriteAddsUp(s: System, e: Entry)
    requires s.writer == Idle && Ready(s.ring) && |e.data| < TWO_32 && Accepts(|e.data|)
    ensures var s2 := Next(Next(s, Note(e)), StoreFlag);
            Runs(s2, Copies(|e.data|)) &&
            var s3 := Run(s2, Copies(|e.data|));
            Enabled(s3, Count) &&
            Next(Next(Next(s3, Count), Move), Turn)
            == s.(ring := Wrote(s.ring, e), written := s.written + [e])
  {
    hide Overlay;
    CopyRest(Next(Next(s, Note(e)), StoreFlag));
    assert e.data[0..] == e.data;
    OverlayTwice(s.ring.mem, s.ring.wrAddr * ROW_SIZE, WordBytes(e.flag), e.data);
  }

  /* ----- Entries that do not fit ----- */

  /** Nothing outside row `i` has changed. */
  ghost predicate OwnRow(before: seq<Byte>, after: seq<Byte>, i: nat) {
    && |after| == |before|
    && forall p :: 0 <= p < |before| && !(i * ROW_SIZE <= p < i * ROW_SIZE + ROW_SIZE) ==> after[p] == before[p]
  }

  /** Sizes that pass the check and do not fit a row: two by the check itself, one because `count + 1` wraps. */
  predicate Oversized(count: Word) {
    count == ROOM + 1 || count == ROOM + 2 || count == TWO_32 - 1
  }

  lemma AcceptedSizes(count: Word)
    ensures Accepts(count) <==> count <= ROOM || Oversized(count)
  {
  }

  lemma FittingStaysInRow(r: Ring, e: Entry)
    requires Ready(r) && |e.data| < TWO_32 && !Oversized(|e.data|)
    ensures OwnRow(r.mem, Wrote(r, e).mem, r.wrAddr)
  {
    AcceptedSizes(|e.data|);
  }

  /** The first byte of the next row, or behind the buffer, is taken by the entry. */
  lemma OversizedSpills(r: Ring, e: Entry)
    requires Ready(r) && |e.data| < TWO_32 && Oversized(|e.data|)
    ensures Wrote(r, e).mem[r.wrAddr * ROW_SIZE + ROW_SIZE] == e.data[ROOM]
  {
    AcceptedSizes(|e.data|);
    assert Bytes(e)[ROW_SIZE] == e.data[ROOM];
  }

  /** A call with `count` bytes keeps to its own row, whatever it writes and wherever, exactly for the other sizes. */
  lemma OwnRowExactly(count: Word)
    ensures (forall r: Ring, e: Entry :: Ready(r) && |e.data| == count ==> OwnRow(r.mem, Wrote(r, e).mem, r.wrAddr))
            <==> !Oversized(count)
  {
    hide OwnRow, Wrote;
    if Oversized(count) {
      var r, e := Ring(0, 0, 0, 0, seq(END + TWO_32, _ => 0)), Entry(0, seq(count, _ => 1));
      OversizedSpills(r, e);
      NotOwnRow(r.mem, Wrote(r, e).mem, 0);
    } else {
      forall r: Ring, e: Entry | Ready(r) && |e.data| == count
        ensures OwnRow(r.mem, Wrote(r, e).mem, r.wrAddr)
      {
        FittingStaysInRow(r, e);
      }
    }
  }

  lemma NotOwnRow(before: seq<Byte>, after: seq<Byte>, i: nat)
    requires i * ROW_SIZE + ROW_SIZE < |before| && |after| == |before|
    requires after[i * ROW_SIZE + ROW_SIZE] != before[i * ROW_SIZE + ROW_SIZE]
    ensures !OwnRow(before, after, i)
  {
  }

  /** The bytes of an entry stand from the start of a row on, also past its end. */
  predicate Intact(mem: seq<Byte>, i: nat, e: Entry) {
    i * ROW_SIZE + |Bytes(e)| <= |mem| && mem[i * ROW_SIZE..i * ROW_SIZE + |Bytes(e)|] == Bytes(e)
  }

  /** An entry of `ROOM + 1` bytes is accepted and whole at first; the very next write takes its last byte. */
  lemma OversizedIsSpoiled(r: Ring, e: Entry, next: Entry)
    requires Ready(r) && |e.data| == ROOM + 1 && r.wrAddr + 1 < ROWS && |next.data| <= ROOM
    requires WordBytes(next.flag)[0] != e.data[ROOM]
    ensures Accepts(|e.data|) && Intact(Wrote(r, e).mem, r.wrAddr, e)
    ensures !Intact(Wrote(Wrote(r, e), next).mem, r.wrAddr, e)
  {
    var once, base := Wrote(r, e), r.wrAddr * ROW_SIZE;
    AcceptedSizes(|e.data|);
    AcceptedSizes(|next.data|);
    var twice := Wrote(once, next).mem;
    assert once.wrAddr * ROW_SIZE == base + ROW_SIZE;
    assert twice[base + ROW_SIZE] == Bytes(next)[0] == WordBytes(next.flag)[0];
    IntactAt(twice, r.wrAddr, e, ROW_SIZE);
  }

  lemma IntactAt(mem: seq<Byte>, i: nat, e: Entry, q: nat)
    requires q < |Bytes(e)| && i * ROW_SIZE + q < |mem|
    ensures Intact(mem, i, e) ==> mem[i * ROW_SIZE + q] == Bytes(e)[q]
  {
  }

  /* ----- The object ----- */

  class DataSharedMemory {
    var wrAddr: nat
    var wrCount: nat
    var wrAddrLast: nat
    var wrCountLast: nat
    const mem: array<Byte>

    ghost predicate Valid()
      reads this
    {
      mem.Length >= END + TWO_32 && wrAddr < ROWS && wrAddrLast < ROWS
    }

    ghost function State(): Ring
      reads this, mem
    {
      Ring(wrAddr, wrCount, wrAddrLast, wrCountLast, mem[..])
    }

    constructor (memory: array<Byte>)
      requires memory.Length >= END + TWO_32
      ensures Valid() && mem == memory && State() == Empty(mem[..]).ring
    {
      wrAddr, wrCount, wrAddrLast, wrCountLast, mem := 0, 0, 0, 0, memory;
    }

    method Write(flag: Word, data: seq<Byte>)
      requires Valid() && |data| < TWO_32
      modifies this, mem
      ensures Valid() && State() == Wrote(old(State()), Entry(flag, data))
    {
      hide Overlay, Memory, WordBytes;
      var count: nat := |data|;
      if Wrap(count + 1) < ROW_SIZE {
        wrAddrLast := wrAddr;
        wrCountLast := wrCount;
        Copy(wrAddr * ROW_SIZE, WordBytes(flag));
        Copy(wrAddr * ROW_SIZE + 4, data);
        OverlayTwice(old(mem[..]), wrAddr * ROW_SIZE, WordBytes(flag), data);
        wrCount := wrCount + 1;
        wrAddr := wrAddr + 1;
        if wrAddr == ROWS { wrAddr := 0; }
      }
    }

    /** `memcpy` to place `p`. */
    method Copy(p: nat, bs: seq<Byte>)
      requires p + |bs| <= mem.Length
      modifies mem
      ensures mem[..] == Overlay(old(mem[..]), p, bs)
    {
      hide Overlay;
      NoOverlay(mem[..], p, bs[..0]);
      for n := 0 to |bs|
        invariant mem[..] == Overlay(old(mem[..]), p, bs[..n])
      {
        ghost var was := mem[..];
        mem[p + n] := bs[n];
        StoreNext(old(mem[..]), p, bs, n);
        StoredByte(was, mem[..], p + n, bs[n]);
      }
      assert bs[..|bs|] == bs;
    }

    /** `None` when there is nothing new for this reader; otherwise its row, and the flag in it. */
    method Read(d: Reader) returns (found: Option<(nat, Word)>, next: Reader)
      requires Valid() && d.rdAddr < ROWS
      ensures var e := Adjusted(State(), d);
              if e.rdCount == wrCount then found == None && next == e
              else found == Some((e.rdAddr, FlagOf(RowAt(mem[..], e.rdAddr)))) && next == Advanced(e)
      ensures next.rdAddr < ROWS
    {
      var rdAddr, rdCount := d.rdAddr, d.rdCount;
      if (rdCount == 0 && wrCount != 0) || rdCount > wrCount || wrCount - rdCount >= ROWS / 2 {
        rdAddr := wrAddrLast;
        rdCount := wrCountLast;
      }
      if rdCount == wrCount { return None, Reader(rdAddr, rdCount); }
      var flag := BytesWord(mem[rdAddr * ROW_SIZE..rdAddr * ROW_SIZE + 4]);
      assert mem[rdAddr * ROW_SIZE..rdAddr * ROW_SIZE + 4] == RowAt(mem[..], rdAddr)[..4];
      found := Some((rdAddr, flag));
      rdCount := rdCount + 1;
      rdAddr := rdAddr + 1;
      if rdAddr == ROWS { rdAddr := 0; }
      next := Reader(rdAddr, rdCount);
    }
  }

  lemma StoredByte(before: seq<Byte>, after: seq<Byte>, p: nat, b: Byte)
    requires p < |before| && after == before[p := b]
    ensures after == Overlay(before, p, [b])
  {
  }

  lemma StoreNext(mem: seq<Byte>, p: nat, bs: seq<Byte>, n: nat)
    requires p + |bs| <= |mem| && n < |bs|
    ensures Overlay(Overlay(mem, p, bs[..n]), p + n, [bs[n]]) == Overlay(mem, p, bs[..n + 1])
  {
    OverlayTwice(mem, p, bs[..n], [bs[n]]);
    assert bs[..n + 1] == bs[..n] + [bs[n]];
  }
}
