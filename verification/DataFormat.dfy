/** The tagged records of a data file and the rule by which they are read back. */
module DataFormat {
  import opened Words

  /** The upper nibble of a tag: 0 marks raw data, the others an XML text (1 to 5 are in use). */
  type XmlKind = k: int | 1 <= k < 16 witness 1

  datatype Record = Raw(words: seq<Word>) | Xml(kind: XmlKind, text: seq<Byte>)

  /** The length word written before a payload: words of raw data, bytes of XML cut to 28 bits. */
  function Tag(r: Record): Word {
    match r
    case Raw(words) => Wrap(|words|)
    case Xml(kind, text) => TWO_28 * kind + |text| % TWO_28
  }

  /** The bytes written after the tag, in the 32-bit arithmetic of the byte counts. */
  function Payload(r: Record): seq<Byte> {
    match r
    case Raw(words) =>
      var size := Wrap(|words|);
      assert Wrap(4 * size) <= 4 * size <= 4 * |words|;
      WordsBytes(words)[..Wrap(4 * size)]
    case Xml(_, text) => text[..|text| % TWO_28]
  }

  function Encode(r: Record): (bs: seq<Byte>)
    ensures |bs| == 4 + |Payload(r)|
  {
    WordBytes(Tag(r)) + Payload(r)
  }

  function EncodeAll(rs: seq<Record>): seq<Byte> {
    if rs == [] then [] else Encode(rs[0]) + EncodeAll(rs[1..])
  }

  predicate WellSized(r: Record) {
    match r
    case Raw(words) => |words| < TWO_28
    case Xml(_, text) => |text| < TWO_28
  }

  /** How many payload bytes a tag announces. */
  function PayloadLength(tag: Word): (n: nat) {
    if tag / TWO_28 == 0 then 4 * (tag % TWO_28) else tag % TWO_28
  }

  function MakeRecord(tag: Word, payload: seq<Byte>): Record
    requires |payload| == PayloadLength(tag)
  {
    if tag / TWO_28 == 0 then Raw(BytesWords(payload)) else Xml(tag / TWO_28, payload)
  }

  /** Complete records of a byte stream, and the bytes of a record that is cut off. */
  datatype Parsed = Parsed(records: seq<Record>, rest: seq<Byte>)

  function Decode(bs: seq<Byte>): Parsed
    decreases |bs|
  {
    if |bs| < 4 then Parsed([], bs)
    else
      var tag := BytesWord(bs[..4]);
      var end := 4 + PayloadLength(tag);
      if |bs| < end then Parsed([], bs)
      else
        var later := Decode(bs[end..]);
        Parsed([MakeRecord(tag, bs[4..end])] + later.records, later.rest)
  }

  lemma EncodedLength(r: Record)
    requires WellSized(r)
    ensures PayloadLength(Tag(r)) == |Payload(r)|
    ensures MakeRecord(Tag(r), Payload(r)) == r
  {
    hide WordsBytes, BytesWords, WordBytes;
    match r
    case Raw(words) => RawLength(words);
    case Xml(kind, text) => TextLength(kind, text);
  }

  lemma RawLength(words: seq<Word>)
    requires |words| < TWO_28
    ensures var r := Raw(words); PayloadLength(Tag(r)) == |Payload(r)| && MakeRecord(Tag(r), Payload(r)) == r
  {
    hide WordsBytes, BytesWords, WordBytes;
    assert Payload(Raw(words)) == WordsBytes(words);
    WordsBytesInverse(words);
  }

  lemma TextLength(kind: XmlKind, text: seq<Byte>)
    requires |text| < TWO_28
    ensures var r := Xml(kind, text); PayloadLength(Tag(r)) == |Payload(r)| && MakeRecord(Tag(r), Payload(r)) == r
  {
    hide WordsBytes, BytesWords, WordBytes;
    assert Payload(Xml(kind, text)) == text;
  }

  /** Reading one well-sized record off the front of any stream. */
  lemma DecodeOne(r: Record, tail: seq<Byte>)
    requires WellSized(r)
    ensures Decode(Encode(r) + tail) == Parsed([r] + Decode(tail).records, Decode(tail).rest)
  {
    EncodedLength(r);
    WordBytesInverse(Tag(r));
    var bs := Encode(r) + tail;
    var end := 4 + |Payload(r)|;
    assert bs[..4] == WordBytes(Tag(r));
    assert bs[4..end] == Payload(r);
    assert bs[end..] == tail;
  }

  lemma HeadThenTail<T>(s: seq<T>, t: seq<T>)
    requires s != []
    ensures [s[0]] + (s[1..] + t) == s + t
  {
  }

  lemma HeadEncoded(rs: seq<Record>, tail: seq<Byte>)
    requires rs != []
    ensures EncodeAll(rs) + tail == Encode(rs[0]) + (EncodeAll(rs[1..]) + tail)
  {
  }

  /** The records written are the records read, whatever follows them. */
  lemma {:induction false} DecodeInvertsEncode(rs: seq<Record>, tail: seq<Byte>)
    requires forall r :: r in rs ==> WellSized(r)
    ensures Decode(EncodeAll(rs) + tail) == Parsed(rs + Decode(tail).records, Decode(tail).rest)
  {
    if rs == [] {
      assert EncodeAll(rs) + tail == tail && rs + Decode(tail).records == Decode(tail).records;
    } else {
      var more := EncodeAll(rs[1..]) + tail;
      HeadEncoded(rs, tail);
      DecodeOne(rs[0], more);
      DecodeInvertsEncode(rs[1..], tail);
      HeadThenTail(rs, Decode(tail).records);
    }
  }

  lemma CutRecord(r: Record, n: nat)
    requires WellSized(r) && n < |Encode(r)|
    ensures Decode(Encode(r)[..n]).records == []
  {
    EncodedLength(r);
    WordBytesInverse(Tag(r));
    if 4 <= n { assert Encode(r)[..n][..4] == WordBytes(Tag(r)); }
  }

  /** A file that has only been written up to some byte still yields a prefix of the records. */
  lemma {:induction false} DecodePrefix(rs: seq<Record>, n: nat)
    requires forall r :: r in rs ==> WellSized(r)
    requires n <= |EncodeAll(rs)|
    ensures Decode(EncodeAll(rs)[..n]).records <= rs
    ensures n == |EncodeAll(rs)| ==> Decode(EncodeAll(rs)[..n]) == Parsed(rs, [])
  {
    hide WordBytes, BytesWord, Encode;
    var cut := EncodeAll(rs)[..n];
    if rs != [] {
      var head, tail := Encode(rs[0]), EncodeAll(rs[1..]);
      if n < |head| {
        assert cut == head[..n];
        CutRecord(rs[0], n);
      } else {
        assert cut == head + tail[..n - |head|];
        DecodeOne(rs[0], tail[..n - |head|]);
        DecodePrefix(rs[1..], n - |head|);
      }
    }
  }

  /** A record survives the round trip exactly when its size fits below the type nibble. */
  lemma RoundTripExact(r: Record)
    requires r.Raw? ==> |r.words| < TWO_32
    ensures Decode(Encode(r)).records == [r] <==> WellSized(r)
  {
    if WellSized(r) {
      DecodeInvertsEncode([r], []);
      assert EncodeAll([r]) + [] == Encode(r);
    } else {
      WordBytesInverse(Tag(r));
      assert Encode(r)[..4] == WordBytes(Tag(r));
    }
  }

  lemma {:induction false} EncodeAllAppend(rs: seq<Record>, r: Record)
    ensures EncodeAll(rs + [r]) == EncodeAll(rs) + Encode(r)
  {
    if rs == [] {
      assert rs + [r] == [r];
    } else {
      assert (rs + [r])[1..] == rs[1..] + [r];
      EncodeAllAppend(rs[1..], r);
    }
  }
}
