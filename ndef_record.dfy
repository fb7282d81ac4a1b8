/**
 * One NDEF record as the unitary tests see it: the packed header byte, the
 * type, id and payload views, and the cached typed value; structural
 * comparison (ndefRecordMatch) and copy (ndefRecordCopy); and the minimal
 * record wire layout of section 3.2 of the NFC Forum NDEF Technical
 * Specification that the tests' encode/decode assertions rely on.
 */
module NdefRecord {
  import opened ByteCodec
  import opened StErrno

  type bit = x: int | 0 <= x < 2
  type tnf3 = x: int | 0 <= x < 8

  // Type Name Format values
  const TNF_EMPTY: tnf3 := 0
  const TNF_WELL_KNOWN: tnf3 := 1
  const TNF_MEDIA: tnf3 := 2
  const TNF_URI: tnf3 := 3
  const TNF_EXTERNAL: tnf3 := 4
  const TNF_UNKNOWN: tnf3 := 5
  const TNF_UNCHANGED: tnf3 := 6
  const TNF_RESERVED: tnf3 := 7

  /** Smallest encoded record: header, type length and a one-byte payload length. */
  const NDEF_MIN_RECORD_LEN := 3

  // ---------------------------------------------------------------------
  // Header byte: MB bit 7, ME bit 6, CF bit 5, SR bit 4, IL bit 3, TNF bits 2..0

  function MB(h: bv8): bit { ((h >> 7) & 1) as int }
  function ME(h: bv8): bit { ((h >> 6) & 1) as int }
  function CF(h: bv8): bit { ((h >> 5) & 1) as int }
  function SR(h: bv8): bit { ((h >> 4) & 1) as int }
  function IL(h: bv8): bit { ((h >> 3) & 1) as int }
  function TNF(h: bv8): tnf3 { (h & 7) as int }

  /** ndefHeader(mb, me, cf, sr, il, tnf): packs the six fields into one byte. */
  function MakeHeader(mb: bit, me: bit, cf: bit, sr: bit, il: bit, tnf: tnf3): bv8
  {
    (mb as bv8 << 7) | (me as bv8 << 6) | (cf as bv8 << 5) | (sr as bv8 << 4) | (il as bv8 << 3) | tnf as bv8
  }

  /** Unpacking a packed header gives back its six fields. */
  lemma HeaderFieldsRoundTrip(mb: bit, me: bit, cf: bit, sr: bit, il: bit, tnf: tnf3)
    ensures var p := MakeHeader(mb, me, cf, sr, il, tnf);
      MB(p) == mb && ME(p) == me && CF(p) == cf && SR(p) == sr && IL(p) == il && TNF(p) == tnf
  {
  }

  /** Every header byte is the packing of its six fields. */
  lemma HeaderByteRoundTrip(h: bv8)
    ensures MakeHeader(MB(h), ME(h), CF(h), SR(h), IL(h), TNF(h)) == h
  {
  }

  /** The header with its MB bit replaced. */
  function WithMB(h: bv8, b: bit): (r: bv8)
    ensures MB(r) == b && ME(r) == ME(h) && CF(r) == CF(h) && SR(r) == SR(h) && IL(r) == IL(h) && TNF(r) == TNF(h)
  {
    if b == 1 then h | 0x80 else h & 0x7F
  }

  /** The header with its ME bit replaced. */
  function WithME(h: bv8, b: bit): (r: bv8)
    ensures ME(r) == b && MB(r) == MB(h) && CF(r) == CF(h) && SR(r) == SR(h) && IL(r) == IL(h) && TNF(r) == TNF(h)
  {
    if b == 1 then h | 0x40 else h & 0xBF
  }

  /** The header with its SR bit replaced. */
  function WithSR(h: bv8, b: bit): (r: bv8)
    ensures SR(r) == b && MB(r) == MB(h) && ME(r) == ME(h) && CF(r) == CF(h) && IL(r) == IL(h) && TNF(r) == TNF(h)
    ensures b == SR(h) ==> r == h
  {
    if b == 1 then h | 0x10 else h & 0xEF
  }

  // ---------------------------------------------------------------------
  // Records

  type ShortBytes = s: seq<uint8> | |s| < 0x100
  type LongBytes = s: seq<uint8> | |s| < 0x1_0000_0000

  /** A read-only buffer view: a NULL pointer (length 0) or the bytes it designates. */
  datatype ConstBuffer = Null | Bytes(data: LongBytes)
  {
    function Length(): uint32 { if Null? then 0 else |data| }
    function Contents(): LongBytes { if Null? then [] else data }
  }

  /**
   * The cached typed value a record may point to (its `ndeftype`). Matching
   * only ever asks it for the payload length it would encode to.
   */
  datatype TypedValue = TypedValue(payloadLength: uint32)

  /**
   * An ndefRecord without its `next` link. The type and id views hold exactly
   * typeLength and idLength bytes, so those two lengths are |recType| and |id|.
   */
  datatype Record = Record(header: bv8, recType: ShortBytes, id: ShortBytes,
                           payload: ConstBuffer, ndeftype: Option<TypedValue>)
  {
    function TypeLength(): uint8 { |recType| }
    function IdLength(): uint8 { |id| }
  }

  /**
   * ndefRecordGetPayloadLength: the length the typed value reports when the
   * record caches one, otherwise the length of the payload view.
   */
  function GetPayloadLength(r: Record): uint32
  {
    if r.ndeftype.Some? then r.ndeftype.value.payloadLength else r.payload.Length()
  }

  /** The record ndefRecordReset produces: SR set, TNF EMPTY, everything else empty. */
  const EmptyRecord: Record := Record(MakeHeader(0, 0, 0, 1, 0, TNF_EMPTY), [], [], Null, None)

  /** ST_BYTECMP(a, b, n) == 0: the first n bytes of both views agree. */
  function ByteCmpEqual(a: seq<uint8>, b: seq<uint8>, n: int): bool
  {
    0 <= n <= |a| && n <= |b| && a[..n] == b[..n]
  }

  /**
   * ndefRecordMatch. A missing record never matches. The last conjunct keeps
   * the three alternatives of the source; the first one, equal payload
   * lengths, already covers the byte comparison of the second.
   */
  function RecordMatch(r1: Option<Record>, r2: Option<Record>): (m: bool)
    ensures m ==> r1.Some? && r2.Some?
    ensures m ==> r1.value.header == r2.value.header && r1.value.recType == r2.value.recType
                  && r1.value.id == r2.value.id
  {
    if r1.None? || r2.None? then false
    else
      var a, b := r1.value, r2.value;
      && a.header == b.header
      && a.TypeLength() == b.TypeLength()
      && a.IdLength() == b.IdLength()
      && ByteCmpEqual(a.recType, b.recType, a.TypeLength())
      && ByteCmpEqual(a.id, b.id, a.IdLength())
      && ( a.payload.Length() == b.payload.Length()
        || ( a.payload.Length() != 0 && a.payload.Length() == b.payload.Length()
             && ByteCmpEqual(a.payload.Contents(), b.payload.Contents(), a.payload.Length()) )
        || ( (a.ndeftype.Some? || b.ndeftype.Some?) && GetPayloadLength(a) == GetPayloadLength(b) ) )
  }

  /** Equal header, type and id: the part of a match that does not look at payloads. */
  predicate SameHeaderTypeId(a: Record, b: Record)
  {
    a.header == b.header && a.recType == b.recType && a.id == b.id
  }

  /**
   * What ndefRecordMatch decides, stated without the redundant byte
   * comparison: same header, type and id, and either the same payload
   * length or, when one side caches a typed value, the same reported length.
   */
  lemma RecordMatchMeaning(a: Record, b: Record)
    ensures RecordMatch(Some(a), Some(b)) <==>
      SameHeaderTypeId(a, b)
      && ( a.payload.Length() == b.payload.Length()
        || ((a.ndeftype.Some? || b.ndeftype.Some?) && GetPayloadLength(a) == GetPayloadLength(b)) )
  {
    if SameHeaderTypeId(a, b) {
      assert a.recType[..a.TypeLength()] == a.recType;
      assert b.recType[..b.TypeLength()] == b.recType;
      assert a.id[..a.IdLength()] == a.id;
      assert b.id[..b.IdLength()] == b.id;
    }
  }

  /** A NULL record matches nothing, not even another NULL record. */
  lemma MatchNullIsFalse(r: Option<Record>)
    ensures !RecordMatch(None, r) && !RecordMatch(r, None)
  {
  }

  lemma MatchReflexive(a: Record)
    ensures RecordMatch(Some(a), Some(a))
  {
    RecordMatchMeaning(a, a);
  }

  lemma MatchSymmetric(a: Record, b: Record)
    ensures RecordMatch(Some(a), Some(b)) == RecordMatch(Some(b), Some(a))
  {
    RecordMatchMeaning(a, b);
    RecordMatchMeaning(b, a);
  }

  /**
   * Payload bytes are never decisive: two records with the same header, type,
   * id and payload length match whatever their payload bytes are.
   */
  lemma PayloadBytesNotDecisive(a: Record, b: Record)
    requires SameHeaderTypeId(a, b) && a.payload.Length() == b.payload.Length()
    ensures RecordMatch(Some(a), Some(b))
  {
    RecordMatchMeaning(a, b);
  }

  /** A witness: two one-byte payloads that differ still match. */
  lemma DifferentPayloadsMatch()
    ensures var a := Record(MakeHeader(1, 1, 0, 1, 0, TNF_MEDIA), [0x61], [], Bytes([0x01]), None);
            var b := a.(payload := Bytes([0x02]));
            a.payload != b.payload && RecordMatch(Some(a), Some(b))
  {
    var a := Record(MakeHeader(1, 1, 0, 1, 0, TNF_MEDIA), [0x61], [], Bytes([0x01]), None);
    PayloadBytesNotDecisive(a, a.(payload := Bytes([0x02])));
  }

  // ---------------------------------------------------------------------
  // ndefRecordCopy: a record object in memory, updated in place

  /** An ndefRecord structure in memory, with its `next` link. */
  class RecordSlot {
    var header: bv8
    var recType: ShortBytes
    var id: ShortBytes
    var payload: ConstBuffer
    var ndeftype: Option<TypedValue>
    var next: RecordSlot?

    /** The record's fields as a value (everything but `next`). */
    function Value(): Record
      reads this
    {
      Record(header, recType, id, payload, ndeftype)
    }

    constructor (r: Record)
      ensures Value() == r && next == null
    {
      header, recType, id, payload, ndeftype := r.header, r.recType, r.id, r.payload, r.ndeftype;
      next := null;
    }
  }

  /**
   * ndefRecordCopy: ERR_NOMEM when either record is missing; otherwise every
   * field but `next` is copied, and the copy matches its source.
   */
  method RecordCopy(src: RecordSlot?, dest: RecordSlot?) returns (err: ReturnCode)
    modifies dest
    ensures src == null || dest == null ==> err == ERR_NOMEM && (dest != null ==> unchanged(dest))
    ensures src != null && dest != null ==>
      && err == ERR_NONE
      && dest.Value() == old(src.Value())
      && dest.next == old(dest.next)
      && RecordMatch(Some(old(src.Value())), Some(dest.Value()))
  {
    if src == null || dest == null {
      return ERR_NOMEM;
    }
    ghost var s := src.Value();
    dest.header := src.header;
    dest.recType := src.recType;
    dest.id := src.id;
    dest.payload := src.payload;
    dest.ndeftype := src.ndeftype;
    MatchReflexive(s);
    err := ERR_NONE;
  }

  // ---------------------------------------------------------------------
  // Minimal wire layout (section 3.2 of the NDEF Technical Specification)

  /** The encoder writes a one-byte payload length exactly when the payload fits in it. */
  predicate ShortPayload(r: Record) { r.payload.Length() <= 0xFF }

  /** The header byte the encoder writes: the record's own, with SR chosen by payload size. */
  function WireHeader(r: Record): bv8
  {
    WithSR(r.header, if ShortPayload(r) then 1 else 0)
  }

  /**
   * ndefRecordGetLength of an untyped record: the number of bytes
   * ndefRecordEncode writes when the payload is the record's own view.
   */
  function WireLength(r: Record): (n: nat)
    ensures n >= NDEF_MIN_RECORD_LEN
  {
    2 + (if ShortPayload(r) then 1 else 4) + (if IL(r.header) == 1 then 1 + r.IdLength() else 0)
      + r.TypeLength() + r.payload.Length()
  }

  /** The id bytes the encoder writes: none unless the IL flag is set. */
  function WireId(r: Record): ShortBytes
  {
    if IL(r.header) == 1 then r.id else []
  }

  /** The fixed part of an encoded record: header, TYPE LENGTH, PAYLOAD LENGTH, ID LENGTH. */
  function EncodePrefix(r: Record): (b: seq<uint8>)
    ensures |b| == 2 + (if ShortPayload(r) then 1 else 4) + IL(r.header)
  {
    [WireHeader(r) as uint8, r.TypeLength()]
      + (if ShortPayload(r) then [r.payload.Length() as uint8] else Be32(r.payload.Length()))
      + (if IL(r.header) == 1 then [r.IdLength() as uint8] else [])
  }

  /** The encoded untyped record: the fixed part, then TYPE, ID and the PAYLOAD view. */
  function Encode(r: Record): (b: seq<uint8>)
    ensures |b| == WireLength(r)
  {
    EncodePrefix(r) + r.recType + WireId(r) + r.payload.Contents()
  }

  datatype EncodeResult = Encoded(bytes: seq<uint8>) | NoMem(required: nat)

  /**
   * ndefRecordEncode into a buffer of `capacity` bytes: ERR_NOMEM with the
   * required length when the record does not fit, the bytes otherwise.
   */
  function EncodeInto(r: Record, capacity: nat): (e: EncodeResult)
    ensures e.NoMem? <==> capacity < WireLength(r)
    ensures e.NoMem? ==> e.required == WireLength(r)
    ensures e.Encoded? ==> |e.bytes| == WireLength(r) <= capacity
  {
    if capacity < WireLength(r) then NoMem(WireLength(r)) else Encoded(Encode(r))
  }

  /**
   * The length probe of ndefTest_RecordEncodeDecode_1: encoding into a
   * zero-length buffer fails and reports ndefRecordGetLength, at least 3.
   */
  lemma ZeroCapacityProbe(r: Record)
    ensures EncodeInto(r, 0) == NoMem(WireLength(r))
    ensures EncodeInto(r, 0).required >= NDEF_MIN_RECORD_LEN
  {
  }

  /** The fixed part of an encoded record, read back. */
  datatype Prefix = Prefix(header: bv8, typeLen: uint8, payloadLen: uint32, idLen: uint8, size: nat)

  /** Reads the fixed part of a record, or None when the buffer ends inside it. */
  function DecodePrefix(b: seq<uint8>): (p: Option<Prefix>)
    ensures p.Some? ==> p.value.size <= |b|
  {
    if |b| < 2 then None
    else
      var h := b[0] as bv8;
      var lenBytes := if SR(h) == 1 then 1 else 4;
      var size := 2 + lenBytes + IL(h);
      if |b| < size then None
      else
        var payloadLen := if SR(h) == 1 then b[2] as uint32 else LoadBe32(b[2..6]);
        var idLen := if IL(h) == 1 then b[2 + lenBytes] else 0;
        Some(Prefix(h, b[1], payloadLen, idLen, size))
  }

  /**
   * ndefRecordDecode from the front of a buffer: the record and the number of
   * bytes it took, or None when the buffer is shorter than the record declares.
   * Type, id and payload alias the input; a decoded record caches no typed value.
   */
  function Decode(b: seq<uint8>): (d: Option<(Record, nat)>)
    ensures d.Some? ==> NDEF_MIN_RECORD_LEN <= d.value.1 <= |b|
  {
    match DecodePrefix(b)
    case None => None
    case Some(p) =>
      var typeEnd := p.size + p.typeLen;
      var idEnd := typeEnd + p.idLen;
      var total := idEnd + p.payloadLen;
      if |b| < total then None
      else Some((Record(p.header, b[p.size .. typeEnd], b[typeEnd .. idEnd], Bytes(b[idEnd .. total]), None), total))
  }

  /**
   * The records whose encoding decodes back: untyped (the payload is the
   * view itself), the SR bit agrees with the payload size, and an id is only
   * carried with IL set.
   */
  predicate WireConsistent(r: Record)
  {
    && r.ndeftype.None?
    && SR(r.header) == (if ShortPayload(r) then 1 else 0)
    && (IL(r.header) == 0 ==> r.id == [])
  }

  lemma PrefixRoundTrip(r: Record, tail: seq<uint8>)
    requires WireConsistent(r)
    ensures DecodePrefix(EncodePrefix(r) + tail)
      == Some(Prefix(r.header, r.TypeLength(), r.payload.Length(), r.IdLength(), |EncodePrefix(r)|))
  {
    var b := EncodePrefix(r) + tail;
    assert WireHeader(r) == r.header;
    assert b[0] as bv8 == r.header;
    if !ShortPayload(r) {
      assert b[2..6] == Be32(r.payload.Length());
      Be32RoundTrip(r.payload.Length());
    }
  }

  /**
   * Decode(Encode(r)) gives back a record that matches r, consuming exactly
   * the encoded length, whatever bytes follow it.
   */
  lemma RecordRoundTrip(r: Record, rest: seq<uint8>)
    requires WireConsistent(r)
    ensures var d := Decode(Encode(r) + rest);
      && d.Some? && d.value.1 == WireLength(r)
      && d.value.0 == r.(payload := Bytes(r.payload.Contents()), ndeftype := None)
      && RecordMatch(Some(r), Some(d.value.0))
  {
    var back := r.(payload := Bytes(r.payload.Contents()), ndeftype := None);
    DecodeEncoded(r, rest);
    RecordMatchMeaning(r, back);
  }

  lemma DecodeEncoded(r: Record, rest: seq<uint8>)
    requires WireConsistent(r)
    ensures Decode(Encode(r) + rest) == Some((r.(payload := Bytes(r.payload.Contents()), ndeftype := None), WireLength(r)))
  {
    var pre, pl := EncodePrefix(r), r.payload.Contents();
    var p := Prefix(r.header, r.TypeLength(), r.payload.Length(), r.IdLength(), |pre|);
    assert Encode(r) + rest == pre + (r.recType + r.id + pl) + rest by {
      assert WireId(r) == r.id;
    }
    assert DecodePrefix(pre + ((r.recType + r.id + pl) + rest)) == Some(p) by {
      PrefixRoundTrip(r, (r.recType + r.id + pl) + rest);
    }
    assert |pre| + |r.recType| + |r.id| + |pl| == WireLength(r);
    DecodeParts(pre, r.recType, r.id, pl, rest, p);
  }

  /**
   * Once the fixed part reads back as p, the three variable fields that
   * follow it are sliced back out whole, whatever comes after them.
   */
  lemma DecodeParts(pre: seq<uint8>, t: seq<uint8>, i: seq<uint8>, pl: seq<uint8>, rest: seq<uint8>, p: Prefix)
    requires DecodePrefix(pre + ((t + i + pl) + rest)) == Some(p)
    requires p.size == |pre| && p.typeLen == |t| && p.idLen == |i| && p.payloadLen == |pl|
    ensures |t| < 0x100 && |i| < 0x100 && |pl| < 0x1_0000_0000
    ensures Decode(pre + (t + i + pl) + rest) == Some((Record(p.header, t, i, Bytes(pl), None), |pre| + |t| + |i| + |pl|))
  {
    var b := pre + (t + i + pl) + rest;
    assert b == pre + ((t + i + pl) + rest);
    SliceFields(pre, t, i, pl, rest);
  }

  /** Slicing a concatenation at the boundaries of its parts gives back each part. */
  lemma SliceFields(pre: seq<uint8>, t: seq<uint8>, i: seq<uint8>, p: seq<uint8>, rest: seq<uint8>)
    ensures var b := pre + (t + i + p) + rest;
      var typeEnd := |pre| + |t|;
      var idEnd := typeEnd + |i|;
      && b[|pre| .. typeEnd] == t
      && b[typeEnd .. idEnd] == i
      && b[idEnd .. idEnd + |p|] == p
  {
  }

  /** The reset record takes the round trip of ndefTest_RecordEncodeDecode_1. */
  lemma EmptyRecordRoundTrip()
    ensures Decode(Encode(EmptyRecord)).Some?
    ensures RecordMatch(Some(EmptyRecord), Some(Decode(Encode(EmptyRecord)).value.0))
  {
    RecordRoundTrip(EmptyRecord, []);
    assert Encode(EmptyRecord) + [] == Encode(EmptyRecord);
  }
}
