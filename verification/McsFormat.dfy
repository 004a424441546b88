/** Lines of a PROM file in Intel's hexadecimal format: reading one, and writing one. */
module McsFormat {
  import opened Words

  /** How the reading of a line ends. `Unspecified`: two characters are not both hexadecimal digits. */
  datatype Read<+T> = Ok(value: T) | Error | OutOfRange | Unspecified {
    predicate IsFailure() { !Ok? }
    function PropagateFailure<U>(): Read<U>
      requires IsFailure()
    {
      match this
      case Error => Error
      case OutOfRange => OutOfRange
      case Unspecified => Unspecified
    }
    function Extract(): T
      requires Ok?
    {
      value
    }
  }

  datatype LineRecord = DataLine(offset: nat, data: seq<Byte>) | BaseLine(upper: nat) | EndLine

  const DATA_RECORD := 0
  const END_OF_FILE_RECORD := 1
  const EXTENDED_LINEAR_ADDRESS_RECORD := 4

  function HexValue(c: char): (v: int)
    ensures -1 <= v < 16
  {
    if '0' <= c <= '9' then c as int - '0' as int
    else if 'A' <= c <= 'F' then c as int - 'A' as int + 10
    else if 'a' <= c <= 'f' then c as int - 'a' as int + 10
    else -1
  }

  /** The byte written at character `i` of a line. */
  function Field(line: string, i: nat): Read<Byte> {
    if i + 1 >= |line| then OutOfRange
    else if HexValue(line[i]) == -1 || HexValue(line[i + 1]) == -1 then Unspecified
    else Ok(16 * HexValue(line[i]) + HexValue(line[i + 1]))
  }

  /** `n` bytes from character 9 on. */
  function DataFields(line: string, n: nat): (r: Read<seq<Byte>>)
    ensures r.Ok? ==> |r.value| == n
  {
    if n == 0 then Ok([])
    else
      var front :- DataFields(line, n - 1);
      var last :- Field(line, 9 + 2 * (n - 1));
      Ok(front + [last])
  }

  function Sum(bs: seq<Byte>): nat {
    if bs == [] then 0 else Sum(bs[..|bs| - 1]) + bs[|bs| - 1]
  }

  /** The checks on a line's fields; `data` is looked at by the records that carry some. */
  function Judge(count: nat, high: nat, low: nat, kind: nat, check: nat, data: Read<seq<Byte>>): Read<LineRecord>
    requires data.Ok? ==> |data.value| == count
  {
    var head := count + high + low + kind + check;
    if count > 16 then Error
    else if kind == DATA_RECORD then
      if count == 0 then Error
      else
        var bytes :- data;
        if (head + Sum(bytes)) % 0x100 != 0 then Error else Ok(DataLine(0x100 * high + low, bytes))
    else if kind == END_OF_FILE_RECORD then
      if head % 0x100 != 0 then Error else Ok(EndLine)
    else if kind == EXTENDED_LINEAR_ADDRESS_RECORD then
      if count != 2 || high != 0 || low != 0 then Error
      else
        var bytes :- data;
        if (head + Sum(bytes)) % 0x100 != 0 then Error else Ok(BaseLine(0x100 * (bytes[0] as int) + bytes[1] as int))
    else Error
  }

  /** One line, with the checks in the order they are made. */
  function ReadLine(line: string): Read<LineRecord> {
    if line == "" then OutOfRange
    else if line[0] != ':' then Error
    else
      var count :- Field(line, 1);
      var high :- Field(line, 3);
      var low :- Field(line, 5);
      var kind :- Field(line, 7);
      var check :- Field(line, 9 + 2 * count);
      Judge(count, high, low, kind, check, DataFields(line, count))
  }

  /* ----- Writing lines ----- */

  function HexChar(v: nat, lower: bool): char
    requires v < 16
  {
    if v < 10 then '0' + v as char
    else if lower then 'a' + (v - 10) as char
    else 'A' + (v - 10) as char
  }

  function HexPair(b: Byte, lower: bool): (s: string)
    ensures |s| == 2 && 16 * HexValue(s[0]) + HexValue(s[1]) == b && HexValue(s[0]) != -1 && HexValue(s[1]) != -1
  {
    [HexChar(b / 16, lower), HexChar(b % 16, lower)]
  }

  function Pairs(bs: seq<Byte>, lower: bool): (s: string)
    ensures |s| == 2 * |bs|
  {
    if bs == [] then "" else Pairs(bs[..|bs| - 1], lower) + HexPair(bs[|bs| - 1], lower)
  }

  function Line(bs: seq<Byte>, lower: bool): (s: string)
    ensures |s| == 1 + 2 * |bs|
  {
    ":" + Pairs(bs, lower)
  }

  predicate WellFormed(r: LineRecord) {
    match r
    case DataLine(offset, data) => offset < 0x1_0000 && 1 <= |data| <= 16
    case BaseLine(upper) => upper < 0x1_0000
    case EndLine => true
  }

  function LineBytes(r: LineRecord): (bs: seq<Byte>)
    requires WellFormed(r)
    ensures |bs| >= 4 && |bs| == bs[0] as int + 4
  {
    match r
    case DataLine(offset, data) => [|data|, offset / 0x100, offset % 0x100, DATA_RECORD] + data
    case BaseLine(upper) => [2, 0, 0, EXTENDED_LINEAR_ADDRESS_RECORD, upper / 0x100, upper % 0x100]
    case EndLine => [0, 0, 0, END_OF_FILE_RECORD]
  }

  /** The byte that brings the sum of a line to a multiple of 256. */
  function Checksum(bs: seq<Byte>): Byte {
    (0x100 - Sum(bs) % 0x100) % 0x100
  }

  function Render(r: LineRecord, lower: bool): string
    requires WellFormed(r)
  {
    Line(AllBytes(r), lower)
  }

  lemma {:induction false} PairAt(bs: seq<Byte>, lower: bool, i: nat)
    requires i < |bs|
    ensures Pairs(bs, lower)[2 * i..2 * i + 2] == HexPair(bs[i], lower)
  {
    if i < |bs| - 1 {
      var front := bs[..|bs| - 1];
      PairAt(front, lower, i);
      assert Pairs(bs, lower)[2 * i..2 * i + 2] == Pairs(front, lower)[2 * i..2 * i + 2];
    }
  }

  lemma FieldOfLine(bs: seq<Byte>, lower: bool, i: nat)
    requires i < |bs|
    ensures Field(Line(bs, lower), 1 + 2 * i) == Ok(bs[i])
  {
    PairAt(bs, lower, i);
    var s := Line(bs, lower);
    assert s[1 + 2 * i] == Pairs(bs, lower)[2 * i..2 * i + 2][0];
    assert s[2 + 2 * i] == Pairs(bs, lower)[2 * i..2 * i + 2][1];
  }

  lemma {:induction false} DataOfLine(bs: seq<Byte>, lower: bool, n: nat)
    requires 4 + n <= |bs|
    ensures DataFields(Line(bs, lower), n) == Ok(bs[4..4 + n])
  {
    if n != 0 {
      var line := Line(bs, lower);
      DataOfLine(bs, lower, n - 1);
      FieldOfLine(bs, lower, n + 3);
      assert 1 + 2 * (n + 3) == 9 + 2 * (n - 1);
      assert DataFields(line, n) == Ok(bs[4..n + 3] + [bs[n + 3]]);
      assert bs[4..4 + n] == bs[4..n + 3] + [bs[n + 3]];
    } else {
      assert bs[4..4 + n] == [];
    }
  }

  /** What a line of bytes, checksum included, is read as; those behind the counted ones are not looked at. */
  lemma LineIsRead(bs: seq<Byte>, lower: bool, n: nat)
    requires |bs| >= n + 5 && bs[0] == n
    ensures ReadLine(Line(bs, lower)) == Judge(n, bs[1], bs[2], bs[3], bs[n + 4], Ok(bs[4..4 + n]))
  {
    hide Field, DataFields, Judge, Pairs;
    FieldOfLine(bs, lower, 0);
    FieldOfLine(bs, lower, 1);
    FieldOfLine(bs, lower, 2);
    FieldOfLine(bs, lower, 3);
    FieldOfLine(bs, lower, n + 4);
    assert 1 + 2 * (n + 4) == 9 + 2 * n;
    DataOfLine(bs, lower, n);
  }

  lemma {:induction false} SumConcat(a: seq<Byte>, b: seq<Byte>)
    ensures Sum(a + b) == Sum(a) + Sum(b)
  {
    if b == [] {
      assert a + b == a;
    } else {
      assert (a + b)[..|a + b| - 1] == a + b[..|b| - 1];
      SumConcat(a, b[..|b| - 1]);
    }
  }

  lemma SumOfLine(bs: seq<Byte>)
    requires |bs| >= 4
    ensures Sum(bs) == bs[0] as int + bs[1] as int + bs[2] as int + bs[3] as int + Sum(bs[4..])
  {
    assert bs == [bs[0], bs[1], bs[2], bs[3]] + bs[4..];
    SumConcat([bs[0], bs[1], bs[2], bs[3]], bs[4..]);
    assert Sum([bs[0]]) == bs[0];
    SumConcat([bs[0]], [bs[1]]);
    SumConcat([bs[0], bs[1]], [bs[2]]);
    SumConcat([bs[0], bs[1], bs[2]], [bs[3]]);
    assert [bs[0]] + [bs[1]] == [bs[0], bs[1]] && [bs[0], bs[1]] + [bs[2]] == [bs[0], bs[1], bs[2]];
    assert [bs[0], bs[1], bs[2]] + [bs[3]] == [bs[0], bs[1], bs[2], bs[3]];
  }

  /** The bytes of a line, checksum included. */
  function AllBytes(r: LineRecord): (bs: seq<Byte>)
    requires WellFormed(r)
    ensures |bs| >= 5 && |bs| == bs[0] as int + 5
  {
    LineBytes(r) + [Checksum(LineBytes(r))]
  }

  lemma AllBytesSum(r: LineRecord)
    requires WellFormed(r)
    ensures Sum(AllBytes(r)) % 0x100 == 0
  {
    var body := LineBytes(r);
    SumConcat(body, [Checksum(body)]);
    assert Sum([Checksum(body)]) == Checksum(body);
  }

  lemma SumSplit(bs: seq<Byte>, n: nat)
    requires |bs| == n + 5
    ensures Sum(bs) == bs[0] as int + bs[1] as int + bs[2] as int + bs[3] as int + Sum(bs[4..4 + n]) + bs[n + 4] as int
  {
    SumOfLine(bs);
    assert bs[4..] == bs[4..4 + n] + [bs[n + 4]];
    SumConcat(bs[4..4 + n], [bs[n + 4]]);
    assert Sum([bs[n + 4]]) == bs[n + 4];
  }

  lemma JudgedOk(r: LineRecord)
    requires WellFormed(r)
    ensures var bs := AllBytes(r); var n: nat := bs[0];
            Judge(n, bs[1], bs[2], bs[3], bs[n + 4], Ok(bs[4..4 + n])) == Ok(r)
  {
    var bs := AllBytes(r);
    var n: nat := bs[0];
    AllBytesSum(r);
    SumSplit(bs, n);
    var head := n + bs[1] as int + bs[2] as int + bs[3] as int + bs[n + 4] as int;
    match r
    case DataLine(offset, data) =>
      assert bs[4..4 + n] == data && (head + Sum(data)) % 0x100 == 0;
      assert 0x100 * (bs[1] as int) + bs[2] as int == offset;
    case BaseLine(_) => assert (head + Sum(bs[4..4 + n])) % 0x100 == 0;
    case EndLine => assert bs[4..4 + n] == [];
  }

  /** A rendered record is read back as itself. */
  lemma RenderedIsRead(r: LineRecord, lower: bool)
    requires WellFormed(r)
    ensures ReadLine(Render(r, lower)) == Ok(r)
  {
    LineIsRead(AllBytes(r), lower, AllBytes(r)[0]);
    JudgedOk(r);
  }

  lemma JudgedWrong(cs: seq<Byte>, n: nat)
    requires |cs| == n + 5 && 1 <= n <= 16 && cs[0] == n && cs[3] == DATA_RECORD && Sum(cs) % 0x100 != 0
    ensures Judge(n, cs[1], cs[2], cs[3], cs[n + 4], Ok(cs[4..4 + n])) == Error
  {
    SumSplit(cs, n);
    var head := n + cs[1] as int + cs[2] as int + cs[3] as int + cs[n + 4] as int;
    assert head + Sum(cs[4..4 + n]) == Sum(cs);
  }

  /** Any one wrong address, data or checksum byte of a data record is noticed. */
  lemma CorruptionIsNoticed(r: LineRecord, lower: bool, k: nat, wrong: Byte)
    requires WellFormed(r) && r.DataLine?
    requires k in {1, 2} || 4 <= k < |AllBytes(r)|
    requires wrong != AllBytes(r)[k]
    ensures ReadLine(Line(AllBytes(r)[k := wrong], lower)) == Error
  {
    hide ReadLine, Judge, Line, Checksum;
    var bs := AllBytes(r);
    var n, cs := |r.data|, bs[k := wrong];
    LineIsRead(cs, lower, n);
    AllBytesSum(r);
    SumUpdate(bs, k, wrong);
    OtherByte(Sum(bs), bs[k], wrong);
    JudgedWrong(cs, n);
  }

  /** A count that reaches beyond the line raises an exception. */
  lemma ShortLine(bs: seq<Byte>, lower: bool)
    requires 5 <= |bs| < bs[0] as int + 5
    ensures ReadLine(Line(bs, lower)) == OutOfRange
  {
    hide DataFields, Judge, Pairs;
    FieldOfLine(bs, lower, 0);
    FieldOfLine(bs, lower, 1);
    FieldOfLine(bs, lower, 2);
    FieldOfLine(bs, lower, 3);
  }

  /** The wrong bytes that leave a data record readable: it ends the file, or loses its last bytes. */
  predicate Unnoticed(r: LineRecord, k: nat, wrong: Byte)
    requires WellFormed(r) && r.DataLine?
  {
    || (k == 3 && wrong == END_OF_FILE_RECORD && Sum(r.data) % 0x100 == 1)
    || (k == 0 && 1 <= wrong < |r.data|
        && (wrong + r.offset / 0x100 + r.offset % 0x100 + Sum(r.data[..wrong + 1])) % 0x100 == 0)
  }

  /** What a data record is read as with one wrong byte: it passes exactly when that is the kind or the count. */
  lemma UnnoticedExactly(r: LineRecord, lower: bool, k: nat, wrong: Byte)
    requires WellFormed(r) && r.DataLine? && k < |AllBytes(r)| && wrong != AllBytes(r)[k]
    ensures var out := ReadLine(Line(AllBytes(r)[k := wrong], lower));
            && (out.Ok? <==> Unnoticed(r, k, wrong))
            && (out.Ok? ==> out.value == if k == 3 then EndLine else DataLine(r.offset, r.data[..wrong]))
  {
    if k == 3 {
      WrongKind(r, lower, wrong);
    } else if k == 0 {
      WrongCount(r, lower, wrong);
    } else {
      CorruptionIsNoticed(r, lower, k, wrong);
    }
  }

  lemma WrongKind(r: LineRecord, lower: bool, wrong: Byte)
    requires WellFormed(r) && r.DataLine? && wrong != DATA_RECORD
    ensures ReadLine(Line(AllBytes(r)[3 := wrong], lower))
            == if Unnoticed(r, 3, wrong) then Ok(EndLine) else Error
  {
    hide ReadLine, Judge, Line, Checksum;
    var bs := AllBytes(r);
    var n, cs := |r.data|, bs[3 := wrong];
    LineIsRead(cs, lower, n);
    AllBytesSum(r);
    SumSplit(bs, n);
    assert bs[4..4 + n] == r.data == cs[4..4 + n];
    KindJudged(n, cs[1], cs[2], wrong, cs[n + 4], r.data);
  }

  lemma KindJudged(n: nat, high: Byte, low: Byte, wrong: Byte, check: Byte, data: seq<Byte>)
    requires 1 <= n <= 16 && |data| == n && wrong != DATA_RECORD
    requires (n + high as int + low as int + Sum(data) + check as int) % 0x100 == 0
    ensures Judge(n, high, low, wrong, check, Ok(data))
            == if wrong == END_OF_FILE_RECORD && Sum(data) % 0x100 == 1 then Ok(EndLine) else Error
  {
  }

  lemma WrongCount(r: LineRecord, lower: bool, wrong: Byte)
    requires WellFormed(r) && r.DataLine? && wrong != |r.data|
    ensures ReadLine(Line(AllBytes(r)[0 := wrong], lower))
            == if wrong > |r.data| then OutOfRange
               else if Unnoticed(r, 0, wrong) then Ok(DataLine(r.offset, r.data[..wrong])) else Error
  {
    hide ReadLine, Judge, Line, Checksum;
    var n, cs := |r.data|, AllBytes(r)[0 := wrong];
    if wrong > n {
      ShortLine(cs, lower);
    } else {
      LineIsRead(cs, lower, wrong);
      assert cs[4..4 + wrong] == r.data[..wrong] && cs[wrong + 4] == r.data[wrong];
      CountJudged(wrong, cs[1], cs[2], r.data);
    }
  }

  lemma CountJudged(wrong: Byte, high: Byte, low: Byte, data: seq<Byte>)
    requires wrong < |data| <= 16
    ensures Judge(wrong, high, low, DATA_RECORD, data[wrong], Ok(data[..wrong]))
            == if wrong >= 1 && (wrong + high as int + low as int + Sum(data[..wrong + 1])) % 0x100 == 0
               then Ok(DataLine(0x100 * high + low, data[..wrong])) else Error
  {
    assert data[..wrong + 1][..wrong] == data[..wrong];
  }

  lemma SameChecksum(sum: nat, check: Byte)
    requires (sum + check as int) % 0x100 == 0
    ensures check as int == (0x100 - sum % 0x100) % 0x100
  {
  }

  /** What is read as data or an address is the rendering of it, checksum included; what follows is not looked at. */
  lemma OnlyRenderedIsRead(bs: seq<Byte>, lower: bool, r: LineRecord)
    requires |bs| >= 5 && ReadLine(Line(bs, lower)) == Ok(r) && !r.EndLine?
    ensures WellFormed(r) && AllBytes(r) <= bs
  {
    hide ReadLine, Line, Checksum;
    var n: nat := bs[0];
    if |bs| < n + 5 {
      ShortLine(bs, lower);
    } else {
      LineIsRead(bs, lower, n);
      OnlyJudged(bs, n, r);
    }
  }

  lemma OnlyJudged(bs: seq<Byte>, n: nat, r: LineRecord)
    requires |bs| >= n + 5 && bs[0] == n && !r.EndLine?
    requires Judge(n, bs[1], bs[2], bs[3], bs[n + 4], Ok(bs[4..4 + n])) == Ok(r)
    ensures WellFormed(r) && AllBytes(r) <= bs
  {
    hide Sum;
    var body, data := bs[..n + 4], bs[4..4 + n];
    assert body[4..] == data;
    SumOfLine(body);
    if r.BaseLine? { assert n == 2 && data == [bs[4], bs[5]]; }
    assert LineBytes(r) == body;
    SameChecksum(Sum(body), bs[n + 4]);
    assert bs[..n + 5] == body + [bs[n + 4]];
  }

  /** The end record is known by its kind and checksum alone. */
  lemma EndIsReadExactly(bs: seq<Byte>, lower: bool)
    requires |bs| >= 5 && |bs| >= bs[0] as int + 5
    ensures ReadLine(Line(bs, lower)) == Ok(EndLine)
            <==> bs[3] == 1 && bs[0] <= 16
                 && (bs[0] as int + bs[1] as int + bs[2] as int + 1 + bs[bs[0] as int + 4] as int) % 0x100 == 0
  {
    LineIsRead(bs, lower, bs[0]);
  }

  /** A data record of one byte that is taken for the end of the file. */
  lemma DataTakenForEnd()
    ensures ReadLine(Line(AllBytes(DataLine(0, [1]))[3 := END_OF_FILE_RECORD], false)) == Ok(EndLine)
  {
    assert Sum([1]) == 1 by { assert [1][..0] == []; }
    WrongKind(DataLine(0, [1]), false, END_OF_FILE_RECORD);
  }

  lemma OtherByte(sum: int, b: Byte, c: Byte)
    requires sum % 0x100 == 0 && b != c
    ensures (sum - b as int + c as int) % 0x100 != 0
  {
  }

  lemma SumUpdate(bs: seq<Byte>, k: nat, b: Byte)
    requires k < |bs|
    ensures Sum(bs[k := b]) == Sum(bs) - bs[k] as int + b as int
  {
    var front, back := bs[..k], bs[k + 1..];
    assert bs == front + [bs[k]] + back && bs[k := b] == front + [b] + back;
    SumConcat(front + [bs[k]], back);
    SumConcat(front + [b], back);
    SumConcat(front, [bs[k]]);
    SumConcat(front, [b]);
    assert Sum([b]) == b && Sum([bs[k]]) == bs[k];
  }
}
