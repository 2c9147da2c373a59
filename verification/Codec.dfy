/** TCP segments as bytes and back, with the checksum (libsponge/util/parser.cc,
    libsponge/tcp_helpers/tcp_header.cc, libsponge/tcp_helpers/tcp_segment.cc). */
module Codec {
  import opened Words
  import opened Segments
  import opened Checksum

  datatype ParseResult =
    | NoError | BadChecksum | PacketTooShort | WrongIPVersion | HeaderTooShort | TruncatedPacket | Unsupported

  // ---------------------------------------------------------------- integers

  /** `x` shifted right by `k` bytes. */
  function Shifted(x: nat, k: nat): nat { if k == 0 then x else Shifted(x, k - 1) / 0x100 }

  /** The `len` low bytes of `x` in network order. */
  function Digits(x: nat, len: nat): (d: seq<Byte>)
    ensures |d| == len
  {
    if len == 0 then [] else Digits(x / 0x100, len - 1) + [x % 0x100]
  }

  /** The number that `bytes` spell in network order. */
  function BigEndian(bytes: seq<Byte>): nat {
    if bytes == [] then 0
    else
      var last: int := bytes[|bytes| - 1];
      BigEndian(bytes[..|bytes| - 1]) * 0x100 + last
  }

  /** One past the largest number of `len` bytes. */
  function Room(len: nat): nat { if len == 0 then 1 else 0x100 * Room(len - 1) }

  lemma {:induction false} DigitsSpell(x: nat, len: nat)
    requires x < Room(len)
    ensures BigEndian(Digits(x, len)) == x
  {
    if len > 0 {
      DigitsSpell(x / 0x100, len - 1);
      assert Digits(x, len)[..len - 1] == Digits(x / 0x100, len - 1);
    }
  }

  lemma {:induction false} SpellFits(bytes: seq<Byte>)
    ensures BigEndian(bytes) < Room(|bytes|)
  {
    if bytes != [] {
      SpellFits(bytes[..|bytes| - 1]);
    }
  }

  method UnparseInt(s: seq<Byte>, val: nat, len: nat) returns (r: seq<Byte>)
    ensures r == s + Digits(val, len)
  {
    r := s;
    var i := 0;
    while i < len
      invariant 0 <= i <= len
      invariant r == s + Digits(Shifted(val, len - i), i)
    {
      r := r + [Shifted(val, len - i - 1) % 0x100];
      i := i + 1;
    }
  }

  // ---------------------------------------------------------------- the parser

  /** What is left to parse, and the first thing that went wrong. */
  datatype Parse = Parse(buffer: seq<Byte>, error: ParseResult) {

    function Checked(size: nat): Parse {
      if size > |buffer| then this.(error := PacketTooShort) else this
    }

    function Dropped(n: nat): Parse {
      var p := Checked(n);
      if p.error != NoError then p else p.(buffer := buffer[n..])
    }

    /** The integer at the front; zero after an error. */
    function Peeked(len: nat): nat {
      if Checked(len).error != NoError then 0 else BigEndian(buffer[..len])
    }
  }

  lemma PeekedFits(p: Parse, len: nat)
    ensures p.Peeked(len) < Room(len)
  {
    if len <= |p.buffer| {
      SpellFits(p.buffer[..len]);
    }
    RoomIsPositive(len);
  }

  lemma {:induction false} RoomIsPositive(len: nat)
    ensures Room(len) > 0
  {
    if len > 0 {
      RoomIsPositive(len - 1);
    }
  }

  lemma Rooms()
    ensures Room(1) == 0x100 && Room(2) == TWO_16 && Room(4) == TWO_32
  {
    assert Room(1) == 0x100 * Room(0);
    assert Room(2) == 0x100 * Room(1);
    assert Room(3) == 0x100 * Room(2);
    assert Room(4) == 0x100 * Room(3);
  }

  class NetParser {
    var buffer: seq<Byte>
    var error: ParseResult

    ghost function Model(): Parse
      reads this
    {
      Parse(buffer, error)
    }

    constructor (buffer: seq<Byte>)
      ensures Model() == Parse(buffer, NoError)
    {
      this.buffer := buffer;
      error := NoError;
    }

    method CheckSize(size: nat)
      modifies this
      ensures Model() == old(Model()).Checked(size)
    {
      if size > |buffer| {
        error := PacketTooShort;
      }
    }

    method ParseInt(len: nat) returns (ret: nat)
      modifies this
      ensures ret == old(Model()).Peeked(len) < Room(len)
      ensures Model() == old(Model()).Dropped(len)
    {
      PeekedFits(Model(), len);
      CheckSize(len);
      if error != NoError {
        return 0;
      }
      ret := 0;
      var i := 0;
      while i < len
        invariant 0 <= i <= len
        invariant ret == BigEndian(buffer[..i])
      {
        assert buffer[..i + 1][..i] == buffer[..i];
        var b: int := buffer[i];
        ret := ret * 0x100 + b;
        i := i + 1;
      }
      buffer := buffer[len..];
    }

    method RemovePrefix(n: nat)
      modifies this
      ensures Model() == old(Model()).Dropped(n)
    {
      CheckSize(n);
      if error != NoError {
        return;
      }
      buffer := buffer[n..];
    }
  }

  /** Reading back what was written, with `rest` behind it. */
  lemma ReadBack(x: nat, len: nat, rest: seq<Byte>)
    requires x < Room(len)
    ensures var p := Parse(Digits(x, len) + rest, NoError);
            p.Peeked(len) == x && p.Dropped(len) == Parse(rest, NoError)
  {
    DigitsSpell(x, len);
    assert (Digits(x, len) + rest)[..len] == Digits(x, len);
    assert (Digits(x, len) + rest)[len..] == rest;
  }

  // ---------------------------------------------------------------- the header

  const HEADER_LENGTH: nat := 20

  function Bit(flag: bool, weight: nat): nat { if flag then weight else 0 }

  function FlagsByte(h: Header): Byte {
    Bit(h.urg, 32) + Bit(h.ack, 16) + Bit(h.psh, 8) + Bit(h.rst, 4) + Bit(h.syn, 2) + Bit(h.fin, 1)
  }

  predicate BitOf(b: nat, weight: nat)
    requires weight > 0
  {
    b / weight % 2 == 1
  }

  /** The sixteen bytes before the checksum; the data offset is shifted within its byte. */
  function Front(h: Header): (f: seq<Byte>)
    ensures |f| == 16
  {
    Digits(h.sport, 2) + Digits(h.dport, 2) + Digits(h.seqno, 4) + Digits(h.ackno, 4)
    + Digits(h.doff * 16 % 0x100, 1) + Digits(FlagsByte(h), 1) + Digits(h.win, 2)
  }

  /** The urgent pointer, and zeros up to the advertised header size. */
  function Back(h: Header): seq<Byte>
    requires h.doff >= 5
  {
    Digits(h.uptr, 2) + seq(4 * h.doff - HEADER_LENGTH, _ => 0)
  }

  /** The bytes of a header; the program throws when the data offset is below the minimum. */
  function HeaderBytes(h: Header): (r: Option<seq<Byte>>)
    ensures r.Some? <==> h.doff >= 5
  {
    if h.doff < 5 then None else Some(Front(h) + Digits(h.cksum, 2) + Back(h))
  }

  datatype HeaderParse = HeaderParse(header: Header, parse: Parse, result: ParseResult)

  function PeekU8(p: Parse): Byte { PeekedFits(p, 1); Rooms(); p.Peeked(1) }
  function PeekU16(p: Parse): U16 { PeekedFits(p, 2); Rooms(); p.Peeked(2) }
  function PeekU32(p: Parse): U32 { PeekedFits(p, 4); Rooms(); p.Peeked(4) }

  function ParsedHeader(p0: Parse): HeaderParse {
    var p1 := p0.Dropped(2);
    var p2 := p1.Dropped(2);
    var p3 := p2.Dropped(4);
    var p4 := p3.Dropped(4);
    var p5 := p4.Dropped(1);
    var p6 := p5.Dropped(1);
    var p7 := p6.Dropped(2);
    var p8 := p7.Dropped(2);
    var p9 := p8.Dropped(2);
    var doff: Byte := PeekU8(p4) / 16;
    var fl := PeekU8(p5);
    var h := Header(PeekU16(p0), PeekU16(p1), PeekU32(p2), PeekU32(p3), doff,
                    BitOf(fl, 32), BitOf(fl, 16), BitOf(fl, 8), BitOf(fl, 4), BitOf(fl, 2), BitOf(fl, 1),
                    PeekU16(p6), PeekU16(p7), PeekU16(p8));
    if doff < 5 then HeaderParse(h, p9, HeaderTooShort)
    else
      var p := p9.Dropped(4 * doff - HEADER_LENGTH);
      HeaderParse(h, p, p.error)
  }

  method SerializeHeader(h: Header) returns (bytes: Option<seq<Byte>>)
    ensures bytes == HeaderBytes(h)
  {
    hide Digits, Front;
    if h.doff < 5 {
      return None;
    }
    var ret := SerializeFront(h);
    ret := UnparseInt(ret, h.cksum, 2);
    ret := UnparseInt(ret, h.uptr, 2);
    ret := ret + seq(4 * h.doff - |ret|, _ => 0);
    assert ret == Front(h) + Digits(h.cksum, 2) + Back(h);
    return Some(ret);
  }

  method SerializeFront(h: Header) returns (ret: seq<Byte>)
    ensures ret == Front(h)
  {
    hide Digits, FlagsByte;
    ret := [];
    ret := UnparseInt(ret, h.sport, 2);
    ret := UnparseInt(ret, h.dport, 2);
    ret := UnparseInt(ret, h.seqno, 4);
    ret := UnparseInt(ret, h.ackno, 4);
    ret := UnparseInt(ret, h.doff * 16 % 0x100, 1);
    ret := UnparseInt(ret, FlagsByte(h), 1);
    ret := UnparseInt(ret, h.win, 2);
  }

  method ParseHeader(p: NetParser) returns (h: Header, result: ParseResult)
    modifies p
    ensures HeaderParse(h, p.Model(), result) == ParsedHeader(old(p.Model()))
  {
    hide Parse.Peeked, Parse.Dropped, BitOf, Room;
    Rooms();
    var sport := p.ParseInt(2);
    var dport := p.ParseInt(2);
    var seqno := p.ParseInt(4);
    var ackno := p.ParseInt(4);
    var b := p.ParseInt(1);
    var doff := b / 16;
    var fl := p.ParseInt(1);
    var win := p.ParseInt(2);
    var cksum := p.ParseInt(2);
    var uptr := p.ParseInt(2);
    h := Header(sport, dport, seqno, ackno, doff,
                BitOf(fl, 32), BitOf(fl, 16), BitOf(fl, 8), BitOf(fl, 4), BitOf(fl, 2), BitOf(fl, 1),
                win, cksum, uptr);
    if doff < 5 {
      return h, HeaderTooShort;
    }
    p.RemovePrefix(4 * doff - HEADER_LENGTH);
    return h, p.error;
  }

  lemma FlagsReadBack(h: Header)
    ensures var b := FlagsByte(h);
            && BitOf(b, 32) == h.urg && BitOf(b, 16) == h.ack && BitOf(b, 8) == h.psh
            && BitOf(b, 4) == h.rst && BitOf(b, 2) == h.syn && BitOf(b, 1) == h.fin
  {
  }

  /** The bytes of a header one field at a time, with `rest` behind them. */
  lemma FieldByField(h: Header, rest: seq<Byte>)
    requires h.doff >= 5
    ensures HeaderBytes(h).value + rest ==
            Digits(h.sport, 2) + (Digits(h.dport, 2) + (Digits(h.seqno, 4) + (Digits(h.ackno, 4)
            + (Digits(h.doff * 16 % 0x100, 1) + (Digits(FlagsByte(h), 1) + (Digits(h.win, 2) + (Digits(h.cksum, 2)
            + (Digits(h.uptr, 2) + (seq(4 * h.doff - HEADER_LENGTH, _ => 0) + rest)))))))))
  {
    hide Digits;
  }

  /** What parsing a serialized header gives: all fields, except that a data offset beyond fifteen
      loses its high bits. */
  lemma HeaderReadBack(h: Header, rest: seq<Byte>)
    requires h.doff >= 5
    ensures var r := ParsedHeader(Parse(HeaderBytes(h).value + rest, NoError));
            && r.header == h.(doff := h.doff % 16)
            && (h.doff < 16 ==> r.parse == Parse(rest, NoError) && r.result == NoError)
  {
    hide Digits, BigEndian, Parse.Peeked, Parse.Dropped, HeaderBytes, FlagsByte, BitOf, Room;
    Rooms();
    var zeros := seq(4 * h.doff - HEADER_LENGTH, _ => 0);
    var r9 := zeros + rest;
    var r8 := Digits(h.uptr, 2) + r9;
    var r7 := Digits(h.cksum, 2) + r8;
    var r6 := Digits(h.win, 2) + r7;
    var r5 := Digits(FlagsByte(h), 1) + r6;
    var r4 := Digits(h.doff * 16 % 0x100, 1) + r5;
    var r3 := Digits(h.ackno, 4) + r4;
    var r2 := Digits(h.seqno, 4) + r3;
    var r1 := Digits(h.dport, 2) + r2;
    FieldByField(h, rest);
    ReadBack(h.sport, 2, r1);
    ReadBack(h.dport, 2, r2);
    ReadBack(h.seqno, 4, r3);
    ReadBack(h.ackno, 4, r4);
    ReadBack(h.doff * 16 % 0x100, 1, r5);
    ReadBack(FlagsByte(h), 1, r6);
    ReadBack(h.win, 2, r7);
    ReadBack(h.cksum, 2, r8);
    ReadBack(h.uptr, 2, r9);
    FlagsReadBack(h);
    DoffReadBack(h.doff);
    SkipZeros(zeros, rest);
  }

  lemma DoffReadBack(doff: Byte)
    ensures doff * 16 % 0x100 / 16 == doff % 16
  {
  }

  lemma SkipZeros(zeros: seq<Byte>, rest: seq<Byte>)
    ensures Parse(zeros + rest, NoError).Dropped(|zeros|) == Parse(rest, NoError)
  {
    assert (zeros + rest)[|zeros|..] == rest;
  }

  // ---------------------------------------------------------------- the layout of section 3.1 of RFC 793

  function Word16(b: seq<Byte>, i: nat): nat
    requires i + 2 <= |b|
  {
    var hi: int, lo: int := b[i], b[i + 1];
    0x100 * hi + lo
  }

  function Word32(b: seq<Byte>, i: nat): nat
    requires i + 4 <= |b|
  {
    0x1_0000 * Word16(b, i) + Word16(b, i + 2)
  }

  lemma SpellShort(b: seq<Byte>)
    ensures |b| >= 1 ==> BigEndian(b[..1]) == b[0]
    ensures |b| >= 2 ==> BigEndian(b[..2]) == Word16(b, 0)
    ensures |b| >= 4 ==> BigEndian(b[..4]) == Word32(b, 0)
  {
    if |b| >= 1 {
      assert b[..1][..0] == [];
    }
    if |b| >= 2 {
      assert b[..2][..1] == b[..1];
    }
    if |b| >= 4 {
      assert b[..3][..2] == b[..2] && b[..4][..3] == b[..3];
      assert BigEndian(b[..3]) == BigEndian(b[..2]) * 0x100 + b[2];
    }
  }

  /** Where the fields are found in any buffer that is long enough. */
  lemma ParsedLayout(b: seq<Byte>)
    requires |b| >= HEADER_LENGTH
    ensures var h := ParsedHeader(Parse(b, NoError)).header;
            && h.sport == Word16(b, 0) && h.dport == Word16(b, 2)
            && h.seqno == Word32(b, 4) && h.ackno == Word32(b, 8)
            && h.doff == b[12] / 16
            && h.urg == (b[13] / 32 % 2 == 1) && h.ack == (b[13] / 16 % 2 == 1) && h.psh == (b[13] / 8 % 2 == 1)
            && h.rst == (b[13] / 4 % 2 == 1) && h.syn == (b[13] / 2 % 2 == 1) && h.fin == (b[13] % 2 == 1)
            && h.win == Word16(b, 14) && h.cksum == Word16(b, 16) && h.uptr == Word16(b, 18)
  {
    hide BigEndian;
    SpellShort(b);
    SpellShort(b[2..]);
    SpellShort(b[4..]);
    SpellShort(b[8..]);
    SpellShort(b[12..]);
    SpellShort(b[13..]);
    SpellShort(b[14..]);
    SpellShort(b[16..]);
    SpellShort(b[18..]);
  }

  /** And where they are put. */
  lemma HeaderLayout(h: Header)
    requires h.doff >= 5
    ensures var b := HeaderBytes(h).value;
            && |b| == 4 * h.doff
            && Word16(b, 0) == h.sport && Word16(b, 2) == h.dport
            && Word32(b, 4) == h.seqno && Word32(b, 8) == h.ackno
            && b[12] == h.doff % 16 * 16
            && (h.urg <==> b[13] / 32 % 2 == 1) && (h.ack <==> b[13] / 16 % 2 == 1) && (h.psh <==> b[13] / 8 % 2 == 1)
            && (h.rst <==> b[13] / 4 % 2 == 1) && (h.syn <==> b[13] / 2 % 2 == 1) && (h.fin <==> b[13] % 2 == 1)
            && b[13] < 64
            && Word16(b, 14) == h.win && Word16(b, 16) == h.cksum && Word16(b, 18) == h.uptr
            && (forall i | HEADER_LENGTH <= i < |b| :: b[i] == 0)
  {
    hide ParsedHeader, Digits, BigEndian;
    var b := HeaderBytes(h).value;
    assert b + [] == b;
    HeaderReadBack(h, []);
    ParsedLayout(b);
    OffsetByte(h);
  }

  lemma OneDigit(x: Byte)
    ensures Digits(x, 1) == [x]
  {
    assert Digits(x, 1) == Digits(x / 0x100, 0) + [x % 0x100];
  }

  lemma OffsetByte(h: Header)
    requires h.doff >= 5
    ensures HeaderBytes(h).value[12] == h.doff % 16 * 16 && HeaderBytes(h).value[13] == FlagsByte(h) < 64
  {
    hide Digits;
    OneDigit(h.doff * 16 % 0x100);
    OneDigit(FlagsByte(h));
  }

  // ---------------------------------------------------------------- the segment

  /** The bytes of a segment; `pseudo` is the sum the datagram layer contributes. */
  function SegmentBytes(seg: Segment, pseudo: U32): Option<seq<Byte>> {
    if seg.header.doff < 5 then None
    else
      Some(HeaderBytes(Sealed(seg, pseudo).header).value + seg.payload)
  }

  /** The segment with the checksum it is sent with. */
  function Sealed(seg: Segment, pseudo: U32): Segment
    requires seg.header.doff >= 5
  {
    var bare := HeaderBytes(seg.header.(cksum := 0)).value + seg.payload;
    seg.(header := seg.header.(cksum := Complement(Low32(pseudo + WordSum(bare, false)))))
  }

  datatype SegmentParse = SegmentParse(segment: Segment, result: ParseResult)

  /** Parsing into `was`. The result of the header's own check is not passed on. */
  function ParsedSegment(was: Segment, buffer: seq<Byte>, pseudo: U32): SegmentParse {
    if Complement(Low32(pseudo + WordSum(buffer, false))) != 0 then SegmentParse(was, BadChecksum)
    else
      var r := ParsedHeader(Parse(buffer, NoError));
      SegmentParse(Segment(r.header, r.parse.buffer), r.parse.error)
  }

  method SerializeSegment(seg: Segment, pseudo: U32) returns (bytes: Option<seq<Byte>>)
    ensures bytes == SegmentBytes(seg, pseudo)
  {
    hide WordSum, HeaderBytes, Complement, Low32;
    var headerOut := seg.header.(cksum := 0);
    var check := new InternetChecksum(pseudo);
    var first := SerializeHeader(headerOut);
    if first.None? {
      return None;
    }
    check.Add(first.value);
    check.Add(seg.payload);
    WordSumConcat(first.value, seg.payload, false);
    LowAdd(pseudo + WordSum(first.value, false), WordSum(seg.payload, Parity(first.value, false)));
    var value := check.Value();
    headerOut := headerOut.(cksum := value);
    var second := SerializeHeader(headerOut);
    assert headerOut == Sealed(seg, pseudo).header;
    return Some(second.value + seg.payload);
  }

  method ParseSegment(was: Segment, buffer: seq<Byte>, pseudo: U32) returns (r: SegmentParse)
    ensures r == ParsedSegment(was, buffer, pseudo)
    ensures var sum := Low32(pseudo + WordSum(buffer, false));
            && (r.result == BadChecksum <==> sum == 0 || sum % 0xFFFF != 0)
            && (r.result == BadChecksum ==> r.segment == was)
  {
    RefusedExactly(was, buffer, pseudo);
    hide WordSum, Complement, Low32, ParsedHeader;
    var check := new InternetChecksum(pseudo);
    check.Add(buffer);
    var value := check.Value();
    if value != 0 {
      return SegmentParse(was, BadChecksum);
    }
    var p := new NetParser(buffer);
    var header, result := ParseHeader(p);
    return SegmentParse(Segment(header, p.buffer), p.error);
  }

  lemma TwoDigits(c: U16)
    ensures WordSum(Digits(c, 2), false) == c
  {
    assert Digits(c, 2) == [c / 0x100 % 0x100, c % 0x100] by {
      assert Digits(c / 0x100, 1) == Digits(c / 0x100 / 0x100, 0) + [c / 0x100 % 0x100];
    }
    var d := Digits(c, 2);
    assert d[..1][..0] == [];
    assert WordSum(d[..1], false) == 0x100 * (c / 0x100);
  }

  /** The checksum sits at an even place, so it adds its own value to the sum. */
  lemma ChecksumInPlace(h: Header, payload: seq<Byte>, c: U16)
    requires h.doff >= 5
    ensures WordSum(HeaderBytes(h.(cksum := c)).value + payload, false)
            == WordSum(HeaderBytes(h.(cksum := 0)).value + payload, false) + c
  {
    CutAtChecksum(h, payload, c);
    CutAtChecksum(h, payload, 0);
  }

  lemma CutAtChecksum(h: Header, payload: seq<Byte>, c: U16)
    requires h.doff >= 5
    ensures WordSum(HeaderBytes(h.(cksum := c)).value + payload, false)
            == WordSum(Front(h), false) + c + WordSum(Back(h) + payload, false)
  {
    hide Digits, WordSum;
    var g := h.(cksum := c);
    assert Front(g) == Front(h) && Back(g) == Back(h);
    var tail := Digits(c, 2) + (Back(h) + payload);
    assert HeaderBytes(g).value + payload == Front(h) + tail;
    WordSumConcat(Front(h), tail, false);
    WordSumConcat(Digits(c, 2), Back(h) + payload, false);
    TwoDigits(c);
  }

  /** What is sent passes the check. */
  lemma SealedPasses(seg: Segment, pseudo: U32)
    requires seg.header.doff >= 5
    ensures Complement(Low32(pseudo + WordSum(SegmentBytes(seg, pseudo).value, false))) == 0
  {
    hide WordSum, HeaderBytes, Complement;
    var bare := HeaderBytes(seg.header.(cksum := 0)).value + seg.payload;
    var sum := Low32(pseudo + WordSum(bare, false));
    ChecksumInPlace(seg.header, seg.payload, Complement(sum));
    LowAdd(pseudo + WordSum(bare, false), Complement(sum));
    ChecksumCancels(sum);
  }

  /** Parsing what was serialized gives back the segment as it was sealed, for every payload, if and
      only if the data offset fits its four bits. */
  lemma SegmentRoundTrip(was: Segment, seg: Segment, pseudo: U32)
    requires seg.header.doff >= 5
    ensures ParsedSegment(was, SegmentBytes(seg, pseudo).value, pseudo) == SegmentParse(Sealed(seg, pseudo), NoError)
            <==> seg.header.doff < 16
  {
    hide WordSum, HeaderBytes, ParsedHeader, Complement;
    SealedPasses(seg, pseudo);
    HeaderReadBack(Sealed(seg, pseudo).header, seg.payload);
  }

  /** When the header's own parser complains: too few bytes, or a data offset that is below the
      minimum or beyond the end of the buffer. */
  lemma HeaderErrors(buffer: seq<Byte>)
    ensures var r := ParsedHeader(Parse(buffer, NoError));
            if |buffer| < HEADER_LENGTH then r.parse.error == PacketTooShort && r.result != NoError
            else if buffer[12] < 0x50 then
              r == HeaderParse(r.header, Parse(buffer[HEADER_LENGTH..], NoError), HeaderTooShort)
            else
              r.result == r.parse.error == if |buffer| < 4 * (buffer[12] / 16) then PacketTooShort else NoError
  {
    hide BigEndian, BitOf;
    if |buffer| >= HEADER_LENGTH {
      OneByte(buffer[12..]);
    }
  }

  lemma OneByte(bytes: seq<Byte>)
    requires bytes != []
    ensures BigEndian(bytes[..1]) == bytes[0]
  {
    assert bytes[..1][..0] == [];
  }

  /** The header's parser complains and the segment's parser does not pass the complaint on, if and only
      if the checksum is good and twenty bytes or more advertise a data offset below five. */
  lemma ShortHeaderIsAcceptedExactly(was: Segment, buffer: seq<Byte>, pseudo: U32)
    ensures && ParsedSegment(was, buffer, pseudo).result == NoError
            && ParsedHeader(Parse(buffer, NoError)).result != NoError
            <==> && Complement(Low32(pseudo + WordSum(buffer, false))) == 0
                 && |buffer| >= HEADER_LENGTH && buffer[12] < 0x50
  {
    hide WordSum, Complement, ParsedHeader;
    HeaderErrors(buffer);
  }

  /** A segment of twenty zero bytes is parsed without an error, although its data offset is zero. */
  lemma ZerosAreAccepted(was: Segment)
    ensures var buffer := seq(HEADER_LENGTH, _ => 0);
            && ParsedHeader(Parse(buffer, NoError)).result == HeaderTooShort
            && ParsedSegment(was, buffer, 0xFFFF).result == NoError
            && ParsedSegment(was, buffer, 0xFFFF).segment.payload == []
  {
    hide ParsedHeader, WordSum;
    var buffer: seq<Byte> := seq(HEADER_LENGTH, _ => 0);
    ZerosSum(HEADER_LENGTH);
    HeaderErrors(buffer);
  }

  lemma {:induction false} ZerosSum(n: nat)
    ensures WordSum(seq(n, _ => 0), false) == 0
  {
    if n > 0 {
      assert seq(n, _ => 0)[..n - 1] == seq(n - 1, _ => 0);
      ZerosSum(n - 1);
    }
  }

  // ---------------------------------------------------------------- damage

  /** A segment is refused, and the one to parse into left alone, if and only if the sum over its bytes and
      the pseudo header is zero or no multiple of 2^16 - 1. */
  lemma RefusedExactly(was: Segment, buffer: seq<Byte>, pseudo: U32)
    ensures var sum, r := Low32(pseudo + WordSum(buffer, false)), ParsedSegment(was, buffer, pseudo);
            && (r.result == BadChecksum <==> sum == 0 || sum % 0xFFFF != 0)
            && (r.result == BadChecksum ==> r.segment == was)
            && (r.result != BadChecksum ==>
                  && r.result == ParsedHeader(Parse(buffer, NoError)).parse.error
                  && r.segment == Segment(ParsedHeader(Parse(buffer, NoError)).header,
                                          ParsedHeader(Parse(buffer, NoError)).parse.buffer))
  {
    hide WordSum, Complement, ParsedHeader, Low32;
    ComplementCompletes(Low32(pseudo + WordSum(buffer, false)));
    HeaderErrors(buffer);
  }

  /** A segment in which one byte, any one, has been changed on the way is refused, as long as the sum does
      not overflow its 32 bits. */
  lemma OneChangedByteIsRefused(was: Segment, seg: Segment, pseudo: U32, i: nat, x: Byte)
    requires seg.header.doff >= 5
    requires pseudo + WordSum(SegmentBytes(seg, pseudo).value, false) + 0xFFFF < TWO_32
    requires i < |SegmentBytes(seg, pseudo).value| && x != SegmentBytes(seg, pseudo).value[i]
    ensures ParsedSegment(was, SegmentBytes(seg, pseudo).value[i := x], pseudo) == SegmentParse(was, BadChecksum)
  {
    hide WordSum, Complement, ParsedHeader, Sealed, HeaderBytes, ParsedSegment;
    SealedPasses(seg, pseudo);
    var b := SegmentBytes(seg, pseudo).value;
    ComplementCompletes(pseudo + WordSum(b, false));
    WordSumChange(b, false, i, x);
    RefusedExactly(was, b[i := x], pseudo);
    OffMultiple(pseudo + WordSum(b, false), WordSum(b[i := x], false) - WordSum(b, false));
  }

  lemma OffMultiple(sum: nat, change: int)
    requires sum % 0xFFFF == 0 && change != 0 && -0xFFFF < change < 0xFFFF && sum + change >= 0
    ensures (sum + change) % 0xFFFF != 0
  {
    var p, q := (sum + change) / 0xFFFF, sum / 0xFFFF;
    assert change == (p - q) * 0xFFFF + (sum + change) % 0xFFFF;
  }
}
