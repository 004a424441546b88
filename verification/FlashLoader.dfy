/** The loader as the program runs it: registers, buffers and commands in sequence. */
module FlashLoader {
  import opened Words
  import opened McsFormat
  import opened McsReader
  import opened FlashChip
  import opened FlashPages
  import opened AxiMicronN25Q

  class Loader {
    const mode32: bool            // addr32BitMode_
    const timing: Timing
    const data_: array<Word>
    var chip: Chip
    var addrReg: Word
    var dataReg: seq<Word>
    var promStartAddr: Word
    var promSize: Word
    var lane: Word
    var vc: Word
    var programmed: seq<Page>     // history: pages given to the chip
    var sent: seq<Page>           // history: pages given to the streaming interface

    ghost predicate Valid()
      reads this
    {
      data_.Length == WORDS && |dataReg| == WORDS
    }

    constructor (mode: bool, t: Timing, device: Chip, start: Word, size: Word)
      ensures Valid() && chip == device && promStartAddr == start && promSize == size && mode32 == mode
      ensures programmed == [] && sent == [] && fresh(data_)
    {
      mode32, timing, chip, promStartAddr, promSize := mode, t, device, start, size;
      lane, vc, addrReg, programmed, sent := 0xFF, 0xFF, 0, [], [];
      dataReg := seq(WORDS, _ => 0);
      data_ := new Word[WORDS];
    }

    method Send(cmd: Command)
      requires Valid()
      modifies this`chip
      ensures Valid() && chip == Execute(old(chip), cmd, Target(mode32, addrReg), DataBytes(dataReg), timing)
    {
      chip := Execute(chip, cmd, Target(mode32, addrReg), DataBytes(dataReg), timing);
    }

    /** Poll the flag status until the ready bit is set. */
    method WaitForFlashReady()
      requires Valid()
      modifies this`chip
      ensures Valid() && chip == old(chip).(busy := 0)
    {
      var ready := false;
      while !ready
        invariant Valid() && chip == old(chip).(busy := chip.busy)
        invariant ready ==> chip.busy == 0
        decreases if ready then 0 else 1, chip.busy
      {
        ready := chip.busy == 0;
        Send(FlagStatus);
      }
    }

    method EnableWrites()
      requires Valid()
      modifies this`chip
      ensures Valid() && chip == old(chip).(busy := 0, wel := true)
    {
      WaitForFlashReady();
      Send(WriteEnable);
    }

    /** Every command with the write mask is preceded by a write enable. */
    method SetCmd(cmd: Command)
      requires Valid()
      modifies this`chip
      ensures Valid()
      ensures chip == Execute(if IsWrite(cmd) then old(chip).(busy := 0, wel := true) else old(chip),
                              cmd, Target(mode32, addrReg), DataBytes(dataReg), timing)
    {
      if IsWrite(cmd) { EnableWrites(); }
      Send(cmd);
    }

    /** The command reaches the chip ready and enabled, whatever it was doing before. */
    method EraseCommand(address: Word)
      requires Valid()
      modifies this`chip, this`addrReg
      ensures Valid() && chip.clean == old(chip.clean)
      ensures chip.mem == Erase(old(chip.mem), Target(mode32, address))
    {
      addrReg := address;
      SetCmd(SectorErase);
    }

    method WriteCommand(address: Word)
      requires Valid()
      modifies this`chip, this`addrReg, this`programmed
      ensures Valid() && chip.clean == old(chip.clean)
      ensures chip.mem == Program(old(chip.mem), Target(mode32, address), DataBytes(dataReg))
      ensures programmed == old(programmed) + [Page(address, DataBytes(dataReg))]
    {
      addrReg := address;
      SetCmd(PageProgram);
      programmed := programmed + [Page(address, DataBytes(dataReg))];
    }

    method ReadCommand(address: Word)
      requires Valid()
      modifies this`chip, this`addrReg
      ensures Valid() && chip.clean == old(chip.clean) && chip.mem == old(chip.mem) && addrReg == address
    {
      WaitForFlashReady();
      addrReg := address;
      SetCmd(PageRead);
    }

    method SetData()
      requires Valid()
      modifies this`dataReg
      ensures Valid() && dataReg == data_[..]
    {
      dataReg := data_[..];
    }

    /** The data register after a read command: the page, big end first, four bytes to a word. */
    method GetData()
      requires Valid()
      modifies this`dataReg, data_
      ensures Valid()
      ensures DataBytes(data_[..]) == ReadOut(chip.mem, Target(mode32, addrReg))
    {
      var page := ReadOut(chip.mem, Target(mode32, addrReg));
      dataReg := seq(WORDS, w requires 0 <= w < WORDS => Partial(page[4 * w..4 * w + 4]));
      forall w | 0 <= w < WORDS {
        data_[w] := dataReg[w];
      }
      DataBytesAre(data_[..], page);
    }

    method EraseBootProm()
      requires Valid()
      requires SweepEnds(promStartAddr, Wrap(promStartAddr + promSize))
      modifies this`chip, this`addrReg
      ensures Valid() && chip.clean == old(chip.clean)
      ensures chip.mem == EraseSweep(old(chip.mem), mode32, promStartAddr, Wrap(promStartAddr + promSize))
    {
      var address: Word := promStartAddr;
      var limit := Wrap(promStartAddr + promSize);
      while address < limit
        invariant Valid() && SweepEnds(address, limit) && chip.clean == old(chip.clean)
        invariant EraseSweep(chip.mem, mode32, address, limit)
                  == EraseSweep(old(chip.mem), mode32, promStartAddr, limit)
        decreases limit - address
      {
        EraseSweepStep(chip.mem, mode32, address, limit);
        EraseCommand(address);
        address := Wrap(address + SECTOR);
      }
    }

    /* ----- Packing bytes into words ----- */

    /** The bytes of the current page so far: whole words in `data_`, the rest in `fileData`. */
    ghost predicate Packed(t: seq<Byte>, fileData: Word, byteCnt: nat, wordCnt: nat)
      requires data_.Length == WORDS
      reads data_
    {
      && byteCnt < 4 && wordCnt < WORDS && |t| == 4 * wordCnt + byteCnt
      && (forall w :: 0 <= w < wordCnt ==> data_[w] == Partial(t[4 * w..4 * w + 4]))
      && (byteCnt != 0 ==> fileData == Partial(t[4 * wordCnt..]))
    }

    method Pack(ghost t: seq<Byte>, b: Byte, fileData0: Word, byteCnt0: nat, wordCnt0: nat)
        returns (fileData: Word, byteCnt: nat, wordCnt: nat, full: bool)
      requires Valid() && Packed(t, fileData0, byteCnt0, wordCnt0)
      modifies data_
      ensures full <==> |t| + 1 == PAGE
      ensures full ==> DataBytes(data_[..]) == t + [b] && byteCnt == 0 && wordCnt == 0
      ensures !full ==> Packed(t + [b], fileData, byteCnt, wordCnt)
    {
      ghost var more := t + [b];
      assert more[4 * wordCnt0..] == t[4 * wordCnt0..] + [b];
      PartialGrows(t[4 * wordCnt0..], b);
      fileData := if byteCnt0 == 0 then Shifted(b, 0) else fileData0 + Shifted(b, byteCnt0);
      assert fileData == Partial(more[4 * wordCnt0..]);
      byteCnt, wordCnt, full := byteCnt0 + 1, wordCnt0, false;
      if byteCnt == 4 {
        byteCnt := 0;
        data_[wordCnt] := fileData;
        assert more[4 * wordCnt0..] == more[4 * wordCnt0..4 * wordCnt0 + 4];
        wordCnt := wordCnt + 1;
        forall w | 0 <= w < wordCnt ensures data_[w] == Partial(more[4 * w..4 * w + 4]) {
          if w < wordCnt0 { assert more[4 * w..4 * w + 4] == t[4 * w..4 * w + 4]; }
        }
        if wordCnt == WORDS {
          wordCnt, full := 0, true;
          DataBytesAre(data_[..], more);
        }
      } else {
        forall w | 0 <= w < wordCnt ensures data_[w] == Partial(more[4 * w..4 * w + 4]) {
          assert more[4 * w..4 * w + 4] == t[4 * w..4 * w + 4];
        }
      }
    }

    lemma Empty(t: seq<Byte>, fileData: Word, byteCnt: nat, wordCnt: nat)
      requires data_.Length == WORDS && Packed(t, fileData, byteCnt, wordCnt)
      ensures |t| < PAGE && (t == [] <==> byteCnt == 0 && wordCnt == 0)
    {
    }

    /** The chip holds what the pages given to it so far make of `mem`. */
    ghost predicate Programmed(mem: seq<Byte>)
      reads this
    {
      (forall p :: p in programmed ==> |p.bytes| == PAGE) && chip.mem == ProgramAll(mem, mode32, programmed)
    }

    /** Add one byte to the page; program the page that starts at `baseAddr` when it is full. */
    method AddByte(ghost mem: seq<Byte>, ghost t: seq<Byte>, b: Byte, baseAddr: Word,
                   fileData0: Word, byteCnt0: nat, wordCnt0: nat)
        returns (fileData: Word, byteCnt: nat, wordCnt: nat)
      requires Valid() && Packed(t, fileData0, byteCnt0, wordCnt0) && Programmed(mem)
      modifies this`chip, this`addrReg, this`dataReg, this`programmed, data_
      ensures Valid() && chip.clean == old(chip.clean) && Programmed(mem)
      ensures Packed(NextTail(t, b), fileData, byteCnt, wordCnt)
      ensures programmed == old(programmed) + NextPage(t, b, baseAddr)
    {
      var full: bool;
      fileData, byteCnt, wordCnt, full := Pack(t, b, fileData0, byteCnt0, wordCnt0);
      if full { WritePage(mem, t + [b], baseAddr); }
    }

    method WritePage(ghost mem: seq<Byte>, ghost t: seq<Byte>, baseAddr: Word)
      requires Valid() && |t| == PAGE && DataBytes(data_[..]) == t && Programmed(mem)
      modifies this`chip, this`addrReg, this`dataReg, this`programmed
      ensures Valid() && chip.clean == old(chip.clean) && Programmed(mem)
      ensures programmed == old(programmed) + [Page(baseAddr, t)]
    {
      ProgramAllGrows(mem, mode32, programmed, Page(baseAddr, t));
      SetData();
      WriteCommand(baseAddr);
    }

    /** The next byte of the file; `got` are those before it. */
    method NextByte(reader: McsRead, ghost s: Stream, ghost got: seq<Item>) returns (next: ReadResult)
      requires reader.Valid() && SoFar(s, got, ReadAll(reader.lines, reader.State()))
      modifies reader, reader.promData, reader.promAddr
      ensures reader.Valid()
      ensures next.Delivered? ==> SoFar(s, got + [next.item], ReadAll(reader.lines, reader.State()))
      ensures !next.Delivered? ==> got == s.items && next == s.end
    {
      next := reader.Read();
      if next.Delivered? {
        SoFarGrows(s, got, next.item, ReadAll(reader.lines, reader.State()));
      }
    }

    /** Word by word: every page is programmed as soon as its 64th word is complete. */
    method WriteBootProm(reader: McsRead, found: bool) returns (r: Outcome)
      requires Valid() && reader.Valid() && reader.State() == Start(reader.ended) && programmed == []
      requires data_ as object != reader.promData && data_ != reader.promAddr
      modifies this`chip, this`addrReg, this`dataReg, this`programmed, data_
      modifies reader, reader.promData, reader.promAddr
      ensures Valid() && chip.clean == old(chip.clean) && Programmed(old(chip.mem))
      ensures (r, programmed) == Programming(found, ReadAll(reader.lines, Start(reader.ended)), promSize)
    {
      if !found { return False; }
      if promSize == 0 { return False; }
      r := WriteFile(reader, chip.mem, ReadAll(reader.lines, Start(reader.ended)));
    }

    method WriteFile(reader: McsRead, ghost mem: seq<Byte>, ghost s: Stream) returns (r: Outcome)
      requires Valid() && reader.Valid() && SoFar(s, [], ReadAll(reader.lines, reader.State()))
      requires Programmed(mem) && programmed == []
      requires data_ as object != reader.promData && data_ != reader.promAddr
      modifies this`chip, this`addrReg, this`dataReg, this`programmed, data_
      modifies reader, reader.promData, reader.promAddr
      ensures Valid() && chip.clean == old(chip.clean) && Programmed(mem)
      ensures (r, programmed) == Written(s, promSize)
    {
      hide ReadAll, FullPages, Filling, ReadByte, PageStart, Programmed;
      ghost var got: seq<Item> := [];
      ghost var t: seq<Byte> := [];
      var fileData: Word, byteCnt, wordCnt, cnt := 0, 0, 0, 0;
      var baseAddr: Word := 0;
      NothingYet(baseAddr);
      while cnt < promSize
        invariant Valid() && reader.Valid() && chip.clean == old(chip.clean) && Programmed(mem)
        invariant SoFar(s, got, ReadAll(reader.lines, reader.State())) && cnt == |got| <= promSize
        invariant Packed(t, fileData, byteCnt, wordCnt) && Filling(got, t, baseAddr)
        invariant programmed == FullPages(got)
      {
        var next := NextByte(reader, s, got);
        if next == FileEnd { break; }
        if !next.Delivered? { return Aborted(next); }
        Empty(t, fileData, byteCnt, wordCnt);
        ghost var before := baseAddr;
        if byteCnt == 0 && wordCnt == 0 { baseAddr := next.item.address; }
        NextItem(got, next.item, t, before, baseAddr);
        fileData, byteCnt, wordCnt := AddByte(mem, t, next.item.data, baseAddr, fileData, byteCnt, wordCnt);
        cnt := cnt + 1;
        t := NextTail(t, next.item.data);
        got := got + [next.item];
      }
      UsedUp(s, got, ReadAll(reader.lines, reader.State()), promSize);
      WritePadding(mem, got, t, baseAddr, fileData, byteCnt, wordCnt);
      r := True;
    }

    /** Pad the last page with ones. */
    method WritePadding(ghost mem: seq<Byte>, ghost got: seq<Item>, ghost t0: seq<Byte>, baseAddr: Word,
                        fileData0: Word, byteCnt0: nat, wordCnt0: nat)
      requires Valid() && Packed(t0, fileData0, byteCnt0, wordCnt0) && Filling(got, t0, baseAddr) && Programmed(mem)
      requires programmed == FullPages(got)
      modifies this`chip, this`addrReg, this`dataReg, this`programmed, data_
      ensures Valid() && chip.clean == old(chip.clean) && Programmed(mem) && programmed == Pages(got)
    {
      hide Pages, FullPages, Filling, Fill, Packed, Programmed;
      var fileData, byteCnt, wordCnt := fileData0, byteCnt0, wordCnt0;
      ghost var t := t0;
      Empty(t0, fileData, byteCnt, wordCnt);
      NoPadding(got, t0, baseAddr);
      while byteCnt != 0 || wordCnt != 0
        invariant Valid() && chip.clean == old(chip.clean) && Programmed(mem)
        invariant Packed(t, fileData, byteCnt, wordCnt)
        invariant t == [] <==> byteCnt == 0 && wordCnt == 0
        invariant |t| < PAGE
        invariant t != [] ==> |t0| <= |t| && t == t0 + Fill(|t| - |t0|) && t0 != [] && programmed == FullPages(got)
        invariant t == [] ==> programmed == Pages(got)
        decreases t != [], PAGE - |t|
      {
        MorePadding(t0, t);
        PaddingDone(got, t0, baseAddr);
        fileData, byteCnt, wordCnt := AddByte(mem, t, ONES, baseAddr, fileData, byteCnt, wordCnt);
        t := NextTail(t, ONES);
        Empty(t, fileData, byteCnt, wordCnt);
      }
    }

    /** What goes out of some pages: all or, without lane and channel, none. */
    ghost function Out(pages: seq<Page>): seq<Page>
      reads this`lane, this`vc
    {
      if lane != 0xFF && vc != 0xFF then pages else []
    }

    /** `bufferedWriteCommand`: a page goes out only once lane and channel are set. */
    method BufferedWriteCommand(baseAddr: Word, data: seq<Byte>)
      requires Valid()
      modifies this`sent
      ensures Valid()
      ensures sent == old(sent) + if lane == 0xFF || vc == 0xFF then [] else [Page(baseAddr, data)]
    {
      if lane == 0xFF { return; }
      if vc == 0xFF { return; }
      sent := sent + [Page(baseAddr, data)];
    }

    /** Add one byte to the buffer; send the page that starts at `baseAddr` when it is full. */
    method BufferByte(fileData: array<Byte>, byteCnt0: nat, b: Byte, baseAddr: Word) returns (byteCnt: nat)
      requires Valid() && fileData.Length == PAGE && byteCnt0 < PAGE
      modifies this`sent, fileData
      ensures Valid() && byteCnt < PAGE
      ensures fileData[..byteCnt] == NextTail(old(fileData[..byteCnt0]), b)
      ensures sent == old(sent) + Out(NextPage(old(fileData[..byteCnt0]), b, baseAddr))
    {
      fileData[byteCnt0] := b;
      byteCnt := byteCnt0 + 1;
      assert fileData[..byteCnt] == old(fileData[..byteCnt0]) + [b];
      if byteCnt == PAGE {
        assert fileData[..] == fileData[..PAGE];
        byteCnt := 0;
        BufferedWriteCommand(baseAddr, fileData[..]);
      }
    }

    /** Byte by byte: every page is sent as soon as its 256th byte is there. */
    method BufferedWriteBootProm(reader: McsRead, found: bool) returns (r: Outcome)
      requires Valid() && reader.Valid() && reader.State() == Start(reader.ended) && sent == []
      modifies this`chip, this`addrReg, this`sent
      modifies reader, reader.promData, reader.promAddr
      ensures Valid() && chip.mem == old(chip.mem) && chip.clean == old(chip.clean)
      ensures var (out, pages) := Programming(found, ReadAll(reader.lines, Start(reader.ended)), promSize);
              r == out && sent == Out(pages)
    {
      if !found { return False; }
      if promSize == 0 { return False; }
      var fileData := new Byte[PAGE];
      r := BufferAll(reader, fileData, ReadAll(reader.lines, Start(reader.ended)));
      if r == True { ReadCommand(0); }
    }

    method BufferAll(reader: McsRead, fileData: array<Byte>, ghost s: Stream) returns (r: Outcome)
      requires Valid() && fileData.Length == PAGE && sent == []
      requires reader.Valid() && SoFar(s, [], ReadAll(reader.lines, reader.State()))
      requires fileData != reader.promData && fileData as object != reader.promAddr
      modifies this`sent, fileData, reader, reader.promData, reader.promAddr
      ensures Valid() && r == Written(s, promSize).0 && sent == Out(Written(s, promSize).1)
    {
      ghost var got: seq<Item>;
      var byteCnt: nat, baseAddr: Word;
      r, byteCnt, baseAddr, got := BufferFile(reader, fileData, s);
      if r == True { BufferPadding(got, fileData, byteCnt, baseAddr); }
    }

    method BufferFile(reader: McsRead, fileData: array<Byte>, ghost s: Stream)
        returns (r: Outcome, byteCnt: nat, baseAddr: Word, ghost got: seq<Item>)
      requires Valid() && fileData.Length == PAGE && sent == []
      requires reader.Valid() && SoFar(s, [], ReadAll(reader.lines, reader.State()))
      requires fileData != reader.promData && fileData as object != reader.promAddr
      modifies this`sent, fileData, reader, reader.promData, reader.promAddr
      ensures Valid() && byteCnt < PAGE && sent == Out(FullPages(got))
      ensures Passed(s, promSize, r, got)
      ensures r == True ==> Filling(got, fileData[..byteCnt], baseAddr)
    {
      hide ReadAll, FullPages, Filling, ReadByte, PageStart;
      got, byteCnt, baseAddr := [], 0, 0;
      NothingYet(baseAddr);
      var cnt := 0;
      while cnt < promSize
        invariant Valid() && reader.Valid()
        invariant SoFar(s, got, ReadAll(reader.lines, reader.State())) && cnt == |got| <= promSize
        invariant byteCnt < PAGE && Filling(got, fileData[..byteCnt], baseAddr) && sent == Out(FullPages(got))
      {
        var next := NextByte(reader, s, got);
        if next == FileEnd { break; }
        if !next.Delivered? { r := Aborted(next); return; }
        ghost var before := baseAddr;
        if byteCnt == 0 { baseAddr := next.item.address; }
        NextItem(got, next.item, fileData[..byteCnt], before, baseAddr);
        byteCnt := BufferByte(fileData, byteCnt, next.item.data, baseAddr);
        cnt := cnt + 1;
        got := got + [next.item];
      }
      UsedUp(s, got, ReadAll(reader.lines, reader.State()), promSize);
      r := True;
    }

    method BufferPadding(ghost got: seq<Item>, fileData: array<Byte>, byteCnt0: nat, baseAddr: Word)
      requires Valid() && fileData.Length == PAGE && byteCnt0 < PAGE
      requires Filling(got, fileData[..byteCnt0], baseAddr) && sent == Out(FullPages(got))
      modifies this`sent, fileData
      ensures Valid() && sent == Out(Pages(got))
    {
      ghost var t := fileData[..byteCnt0];
      var byteCnt := byteCnt0;
      while byteCnt != 0
        invariant Valid() && byteCnt < PAGE
        invariant byteCnt != 0 ==> |t| <= byteCnt && t != [] && fileData[..byteCnt] == t + Fill(byteCnt - |t|)
        invariant byteCnt != 0 ==> sent == Out(FullPages(got))
        invariant byteCnt == 0 ==> sent == Out(Pages(got))
        decreases byteCnt != 0, PAGE - byteCnt
      {
        assert fileData[..byteCnt] + [ONES] == t + Fill(byteCnt + 1 - |t|);
        byteCnt := BufferByte(fileData, byteCnt, ONES, baseAddr);
      }
    }

    /** `data_` holds the page of the chip that the next byte is compared with, unless a new one begins. */
    ghost predicate HasPage(mem: seq<Byte>, got: seq<Item>)
      requires Valid()
      reads this, data_
    {
      |got| % PAGE != 0 ==> DataBytes(data_[..]) == ReadOut(mem, Target(mode32, got[PageStart(|got|)].address))
    }

    /** The byte of the chip for the next byte of the file; a new page is read first where one begins. */
    method BackByte(ghost got: seq<Item>, item: Item, wordCnt: nat, byteCnt: nat) returns (b: Byte)
      requires Valid() && byteCnt < 4 && wordCnt < WORDS && |got| % PAGE == 4 * wordCnt + byteCnt
      requires HasPage(chip.mem, got)
      modifies this`chip, this`addrReg, this`dataReg, data_
      ensures Valid() && chip.mem == old(chip.mem) && chip.clean == old(chip.clean)
      ensures b == ReadBack(chip.mem, mode32, got + [item], |got|)
      ensures HasPage(chip.mem, got + [item])
    {
      if byteCnt == 0 && wordCnt == 0 {
        ReadCommand(item.address);
        GetData();
      }
      ghost var more := got + [item];
      NextCount(|got|);
      assert |got| % PAGE == 0 ==> more[PageStart(|got|)] == item;
      SamePage(data_[..], chip.mem, mode32, more, wordCnt, byteCnt);
      b := ByteOf(data_[wordCnt], byteCnt);
    }

    /** Compare one byte of the file with the chip. */
    method CompareByte(ghost got: seq<Item>, item: Item, byteCnt: nat, wordCnt: nat) returns (same: bool)
      requires Valid() && byteCnt < 4 && wordCnt < WORDS && |got| % PAGE == 4 * wordCnt + byteCnt
      requires HasPage(chip.mem, got) && Matches(chip.mem, mode32, got)
      modifies this`chip, this`addrReg, this`dataReg, data_
      ensures Valid() && chip.mem == old(chip.mem) && chip.clean == old(chip.clean)
      ensures HasPage(chip.mem, got + [item])
      ensures same <==> Matches(chip.mem, mode32, got + [item])
    {
      var promData := BackByte(got, item, wordCnt, byteCnt);
      MatchesGrows(chip.mem, mode32, got, item);
      same := item.data == promData;
    }

    method NextPlace(ghost n: nat, byteCnt0: nat, wordCnt0: nat) returns (byteCnt: nat, wordCnt: nat)
      requires byteCnt0 < 4 && wordCnt0 < WORDS && n % PAGE == 4 * wordCnt0 + byteCnt0
      ensures byteCnt < 4 && wordCnt < WORDS && (n + 1) % PAGE == 4 * wordCnt + byteCnt
    {
      NextCount(n);
      byteCnt, wordCnt := byteCnt0 + 1, wordCnt0;
      if byteCnt == 4 {
        byteCnt := 0;
        wordCnt := wordCnt + 1;
        if wordCnt == WORDS { wordCnt := 0; }
      }
    }

    /** Compare every byte of the file with the page read back for it. */
    method VerifyBootProm(reader: McsRead, found: bool) returns (r: Outcome)
      requires Valid() && reader.Valid() && reader.State() == Start(reader.ended)
      requires data_ as object != reader.promData && data_ != reader.promAddr
      modifies this`chip, this`addrReg, this`dataReg, data_
      modifies reader, reader.promData, reader.promAddr
      ensures Valid() && chip.mem == old(chip.mem) && chip.clean == old(chip.clean)
      ensures r == Verified(chip.mem, mode32, found, ReadAll(reader.lines, Start(reader.ended)), promSize)
    {
      if !found { return True; }
      if promSize == 0 { return False; }
      r := VerifyFile(reader, ReadAll(reader.lines, Start(reader.ended)));
    }

    method VerifyFile(reader: McsRead, ghost s: Stream) returns (r: Outcome)
      requires Valid() && reader.Valid() && SoFar(s, [], ReadAll(reader.lines, reader.State()))
      requires data_ as object != reader.promData && data_ != reader.promAddr
      modifies this`chip, this`addrReg, this`dataReg, data_
      modifies reader, reader.promData, reader.promAddr
      ensures Valid() && chip.mem == old(chip.mem) && chip.clean == old(chip.clean)
      ensures r == Verdict(chip.mem, mode32, s, promSize)
    {
      hide ReadAll, ReadBack, ReadOut, DataBytes, Target, PageStart, Verdict, Complete, Used, ReadByte;
      ghost var got: seq<Item> := [];
      var byteCnt, wordCnt, cnt := 0, 0, 0;
      while cnt < promSize
        invariant Valid() && reader.Valid() && chip.mem == old(chip.mem) && chip.clean == old(chip.clean)
        invariant SoFar(s, got, ReadAll(reader.lines, reader.State())) && cnt == |got| <= promSize
        invariant byteCnt < 4 && wordCnt < WORDS && |got| % PAGE == 4 * wordCnt + byteCnt
        invariant HasPage(chip.mem, got) && Matches(chip.mem, mode32, got)
      {
        var next := NextByte(reader, s, got);
        if next == FileEnd { break; }
        if !next.Delivered? {
          AbortedVerdict(chip.mem, mode32, s, promSize);
          return Aborted(next);
        }
        var same := CompareByte(got, next.item, byteCnt, wordCnt);
        byteCnt, wordCnt := NextPlace(|got|, byteCnt, wordCnt);
        cnt := cnt + 1;
        got := got + [next.item];
        if !same {
          FalseVerdict(chip.mem, mode32, s, got, ReadAll(reader.lines, reader.State()), promSize);
          return False;
        }
      }
      UsedUp(s, got, ReadAll(reader.lines, reader.State()), promSize);
      TrueVerdict(chip.mem, mode32, s, got, promSize);
      r := True;
    }
  }

  lemma TrueVerdict(mem: seq<Byte>, mode32: bool, s: Stream, got: seq<Item>, promSize: nat)
    requires Matches(mem, mode32, got) && Passed(s, promSize, True, got)
    ensures Verdict(mem, mode32, s, promSize) == True
  {
    hide Matches;
  }

  lemma AbortedVerdict(mem: seq<Byte>, mode32: bool, s: Stream, promSize: nat)
    requires Matches(mem, mode32, s.items) && |s.items| < promSize && s.end != FileEnd
    ensures Verdict(mem, mode32, s, promSize) == Aborted(s.end)
  {
    hide Matches;
  }

  lemma FalseVerdict(mem: seq<Byte>, mode32: bool, s: Stream, got: seq<Item>, rest: Stream, promSize: nat)
    requires SoFar(s, got, rest) && |got| <= promSize && !Matches(mem, mode32, got)
    ensures Verdict(mem, mode32, s, promSize) == False
  {
    NoMatch(mem, mode32, got, Used(s, promSize));
  }

  lemma NextCount(n: nat)
    ensures (n + 1) % PAGE == if n % PAGE + 1 == PAGE then 0 else n % PAGE + 1
    ensures (n + 1) % PAGE != 0 ==> PageStart(n + 1) == PageStart(n)
  {
  }

  lemma SamePage(ws: seq<Word>, mem: seq<Byte>, mode32: bool, items: seq<Item>, wordCnt: nat, byteCnt: nat)
    requires |ws| == WORDS && items != [] && wordCnt < WORDS && byteCnt < 4
    requires (|items| - 1) % PAGE == 4 * wordCnt + byteCnt
    requires DataBytes(ws) == ReadOut(mem, Target(mode32, items[PageStart(|items| - 1)].address))
    ensures ReadBack(mem, mode32, items, |items| - 1) == ByteOf(ws[wordCnt], byteCnt)
  {
    var i := 4 * wordCnt + byteCnt;
    assert i / 4 == wordCnt && i % 4 == byteCnt;
    assert DataBytes(ws)[i] == ByteOf(ws[i / 4], i % 4);
  }

  lemma MatchesGrows(mem: seq<Byte>, mode32: bool, got: seq<Item>, item: Item)
    requires Matches(mem, mode32, got)
    ensures var more := got + [item];
            Matches(mem, mode32, more) <==> ReadBack(mem, mode32, more, |got|) == item.data
  {
    var more := got + [item];
    assert more[|got|] == item;
    if ReadBack(mem, mode32, more, |got|) == item.data {
      forall i | 0 <= i < |more| ensures ReadBack(mem, mode32, more, i) == more[i].data {
        if i < |got| { ReadBackPrefix(mem, mode32, got, more, i); }
      }
    }
  }

  lemma ReadBackPrefix(mem: seq<Byte>, mode32: bool, some: seq<Item>, all: seq<Item>, i: nat)
    requires some <= all && i < |some|
    ensures ReadBack(mem, mode32, all, i) == ReadBack(mem, mode32, some, i)
  {
    assert all[PageStart(i)] == some[PageStart(i)];
  }

  lemma NoMatch(mem: seq<Byte>, mode32: bool, some: seq<Item>, all: seq<Item>)
    requires some <= all && !Matches(mem, mode32, some)
    ensures !Matches(mem, mode32, all)
  {
    var i :| 0 <= i < |some| && ReadBack(mem, mode32, some, i) != some[i].data;
    ReadBackPrefix(mem, mode32, some, all, i);
  }

  function NextTail(t: seq<Byte>, b: Byte): seq<Byte> {
    if |t| + 1 == PAGE then [] else t + [b]
  }

  function NextPage(t: seq<Byte>, b: Byte, baseAddr: Word): seq<Page> {
    if |t| + 1 == PAGE then [Page(baseAddr, t + [b])] else []
  }

  /** `t` is what has been read of the page that starts at `baseAddr`. */
  predicate Filling(got: seq<Item>, t: seq<Byte>, baseAddr: Word) {
    t == Datas(got[PageStart(|got|)..]) && (t != [] ==> baseAddr == got[PageStart(|got|)].address)
  }

  /** `got` has been delivered, `rest` is still to come. */
  predicate SoFar(s: Stream, got: seq<Item>, rest: Stream) {
    s.items == got + rest.items && s.end == rest.end
  }

  /** A pass has looked at `got`, and ends with `r` unless the bytes themselves decide otherwise. */
  predicate Passed(s: Stream, promSize: nat, r: Outcome, got: seq<Item>) {
    if r == True then Complete(s, promSize) && got == Used(s, promSize)
    else !Complete(s, promSize) && got == s.items && r == Aborted(s.end)
  }

  lemma UsedUp(s: Stream, got: seq<Item>, rest: Stream, promSize: nat)
    requires |got| <= promSize
    requires (SoFar(s, got, rest) && |got| == promSize) || (got == s.items && s.end == FileEnd)
    ensures Passed(s, promSize, True, got)
  {
  }

  lemma SoFarGrows(s: Stream, got: seq<Item>, item: Item, rest: Stream)
    requires SoFar(s, got, Stream([item] + rest.items, rest.end))
    ensures SoFar(s, got + [item], rest)
  {
    assert got + ([item] + rest.items) == (got + [item]) + rest.items;
  }

  lemma NothingYet(baseAddr: Word)
    ensures Filling([], [], baseAddr) && FullPages([]) == []
  {
  }

  lemma NextItem(got: seq<Item>, item: Item, t: seq<Byte>, before: Word, baseAddr: Word)
    requires Filling(got, t, before) && baseAddr == if t == [] then item.address else before
    ensures FullPages(got + [item]) == FullPages(got) + NextPage(t, item.data, baseAddr)
    ensures Filling(got + [item], NextTail(t, item.data), baseAddr)
  {
    FullPagesGrow(got, item);
    var tail := got[PageStart(|got|)..] + [item];
    assert Datas(tail) == t + [item.data];
    assert |t| == |got| % PAGE;
    if |t| + 1 == PAGE {
      assert (|got| + 1) % PAGE == 0;
    } else {
      assert (got + [item])[PageStart(|got|)..] == tail;
    }
  }

  lemma NoPadding(got: seq<Item>, t: seq<Byte>, baseAddr: Word)
    requires Filling(got, t, baseAddr)
    ensures t == [] ==> Pages(got) == FullPages(got)
    ensures t + Fill(0) == t
  {
  }

  lemma MorePadding(t0: seq<Byte>, t: seq<Byte>)
    requires |t0| <= |t| && t == t0 + Fill(|t| - |t0|)
    ensures t + [ONES] == t0 + Fill(|t| + 1 - |t0|)
  {
  }

  lemma PaddingDone(got: seq<Item>, t0: seq<Byte>, baseAddr: Word)
    requires Filling(got, t0, baseAddr) && t0 != []
    ensures |t0| < PAGE && Pages(got) == FullPages(got) + [Page(baseAddr, t0 + Fill(PAGE - |t0|))]
  {
  }

  lemma ProgramAllGrows(mem: seq<Byte>, mode32: bool, pages: seq<Page>, p: Page)
    requires |p.bytes| == PAGE && forall q :: q in pages ==> |q.bytes| == PAGE
    ensures ProgramAll(mem, mode32, pages + [p])
            == Program(ProgramAll(mem, mode32, pages), Target(mode32, p.base), p.bytes)
  {
    assert (pages + [p])[..|pages + [p]| - 1] == pages;
  }
}
