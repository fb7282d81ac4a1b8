/**
 * The tag-framing helpers of the NDEF system tests: wrapping an NDEF
 * message in the NDEF Message TLV of a Type 2 or Type 5 tag (section 2.3 of
 * the NFC Forum Type 2 Tag specification), the Type 3 Tag Attribute
 * Information Block checksum (section 7.1 of the NFC Forum Type 3 Tag
 * specification), where each tag type gets its message written, and the
 * result mapping and bound check of two small helpers.
 */
module NdefSystem {
  import opened ByteCodec
  import opened StErrno

  /** nfcDeviceType, in declaration order. */
  datatype DeviceType =
    | NFC_DEVICE_TYPE_NONE
    | NFCA_T1T
    | NFCA_T2T
    | NFCF_T3T
    | NFCA_T4T
    | NFCB_T4T
    | NFCV_T5T
    | NFC_DEVICE_TYPE_ANY

  const NDEF_T2T_BLOCK_SIZE := 4
  const NDEF_T3T_BLOCKLEN := 16
  const NDEF_T3T_ATTRIB_INFO_CHECKSUM_LEN := 0xE

  /** Tag and terminator of the TLV blocks. */
  const NDEF_MESSAGE_TLV: uint8 := 0x03
  const TERMINATOR_TLV: uint8 := 0xFE

  // ---------------------------------------------------------------------
  // ndefDumpInfo: the state name table

  /** The names ndefDumpInfo can print, one per NDEF state. */
  const NDEF_STATE_NAMES: seq<string> :=
    ["NDEF_STATE_INVALID", "NDEF_STATE_INITIALIZED", "NDEF_STATE_READWRITE", "NDEF_STATE_READONLY"]

  /**
   * ndefDumpInfo as written: a NULL info and a state above the table size
   * are refused with ERR_PARAM; any other state is looked up in the table,
   * which for a state equal to the table size reads past its end.
   */
  function DumpInfo(state: Option<uint32>): (o: Outcome)
    ensures state.None? ==> o == Returns(ERR_PARAM)
  {
    if state.None? then Returns(ERR_PARAM)
    else if state.value > |NDEF_STATE_NAMES| then Returns(ERR_PARAM)
    else if state.value < |NDEF_STATE_NAMES| then Returns(ERR_NONE)
    else OutOfBoundsRead
  }

  /** The bound check is off by one: state 4 passes it and indexes the 4-entry table out of bounds. */
  lemma DumpInfoOverrun()
    ensures DumpInfo(Some(|NDEF_STATE_NAMES|)) == OutOfBoundsRead
    ensures forall s: uint32 :: DumpInfo(Some(s)) == OutOfBoundsRead <==> s == 4
  {
  }

  /** ndefDumpInfo with the bound it evidently intends: refuse every state that is not a table index. */
  function DumpInfoBounded(state: Option<uint32>): (o: Outcome)
  {
    if state.None? then Returns(ERR_PARAM)
    else if state.value >= |NDEF_STATE_NAMES| then Returns(ERR_PARAM)
    else Returns(ERR_NONE)
  }

  /**
   * With the corrected bound no state reads outside the table, ERR_NONE
   * means the state names a table entry, and it agrees with the code as
   * written on every state but 4.
   */
  lemma DumpInfoBoundedSafe(state: Option<uint32>)
    ensures DumpInfoBounded(state) != OutOfBoundsRead
    ensures DumpInfoBounded(state) == Returns(ERR_NONE) <==> state.Some? && state.value < |NDEF_STATE_NAMES|
    ensures state != Some(4) ==> DumpInfoBounded(state) == DumpInfo(state)
  {
  }

  // ---------------------------------------------------------------------
  // ndefSystemTest_PrepareWriteEmptyMessage

  /**
   * The result of ndefSystemTest_PrepareWriteEmptyMessage (`hasContext` is
   * false for a NULL context): only T2T and NFC-A T4T are supported.
   */
  function PrepareWriteEmptyMessage(hasContext: bool, dt: DeviceType): (err: ReturnCode)
    ensures err == ERR_NONE <==> hasContext && dt in {NFCA_T2T, NFCA_T4T}
    ensures err == ERR_NOT_IMPLEMENTED <==> hasContext && dt in {NFCA_T1T, NFCF_T3T, NFCB_T4T, NFCV_T5T}
    ensures err == ERR_PARAM <==> !hasContext || dt in {NFC_DEVICE_TYPE_NONE, NFC_DEVICE_TYPE_ANY}
  {
    if !hasContext then ERR_PARAM
    else match dt
      case NFCA_T1T => ERR_NOT_IMPLEMENTED
      case NFCA_T2T => ERR_NONE
      case NFCF_T3T => ERR_NOT_IMPLEMENTED
      case NFCA_T4T => ERR_NONE
      case NFCB_T4T => ERR_NOT_IMPLEMENTED
      case NFCV_T5T => ERR_NOT_IMPLEMENTED
      case _ => ERR_PARAM
  }

  // ---------------------------------------------------------------------
  // ndefSystemTest_WrapMessage

  /** The NDEF Message TLV as the helper writes it: tag, one length byte (truncated to 8 bits), value, terminator. */
  function TlvWrap(p: seq<uint8>): (b: seq<uint8>)
    ensures |b| == |p| + 3
  {
    [NDEF_MESSAGE_TLV, Low8(|p|)] + p + [TERMINATOR_TLV]
  }

  /**
   * How a Type 2 Tag reader reads an NDEF Message TLV back: a length byte
   * of 0xFF announces a three-byte length form with a 16-bit big-endian
   * length; the value must be followed by the terminator.
   */
  function TlvUnwrap(b: seq<uint8>): (p: Option<seq<uint8>>)
    ensures p.Some? ==> |p.value| + 3 <= |b|
  {
    if |b| < 2 || b[0] != NDEF_MESSAGE_TLV then None
    else if b[1] == 0xFF then
      if |b| < 4 then None
      else
        var len := 0x100 * b[2] as int + b[3] as int;
        if |b| < 4 + len + 1 || b[4 + len] != TERMINATOR_TLV then None
        else Some(b[4 .. 4 + len])
    else
      var len := b[1] as int;
      if |b| < 2 + len + 1 || b[2 + len] != TERMINATOR_TLV then None
      else Some(b[2 .. 2 + len])
  }

  /** A message shorter than 255 bytes is read back as written, whatever follows the terminator. */
  lemma TlvRoundTrip(p: seq<uint8>, rest: seq<uint8>)
    requires |p| < 0xFF
    ensures TlvUnwrap(TlvWrap(p) + rest) == Some(p)
  {
    var b := TlvWrap(p) + rest;
    assert b[2 .. 2 + |p|] == p;
  }

  /**
   * A message of 255 bytes or more is not read back: its length byte is
   * truncated, or reads as the three-byte length marker.
   */
  lemma TlvWrapLosesLongMessages(p: seq<uint8>)
    requires |p| >= 0xFF
    ensures TlvUnwrap(TlvWrap(p)) != Some(p)
  {
  }

  /** The NDEF Message TLV with the three-byte length form the Type 2 Tag specification prescribes from 255 bytes on. */
  function TlvWrapLong(p: seq<uint8>): (b: seq<uint8>)
    requires |p| < 0xFFFF
  {
    if |p| < 0xFF then TlvWrap(p)
    else [NDEF_MESSAGE_TLV, 0xFF, Low8(|p| / 0x100), Low8(|p|)] + p + [TERMINATOR_TLV]
  }

  /** With the long form every message up to 65534 bytes is read back as written. */
  lemma TlvWrapLongRoundTrip(p: seq<uint8>, rest: seq<uint8>)
    requires |p| < 0xFFFF
    ensures TlvUnwrap(TlvWrapLong(p) + rest) == Some(p)
  {
    if |p| < 0xFF {
      TlvRoundTrip(p, rest);
    } else {
      var b := TlvWrapLong(p) + rest;
      assert 0x100 * b[2] as int + b[3] as int == |p|;
      assert b[4 .. 4 + |p|] == p;
    }
  }

  /** An ndefBuffer: a byte buffer and a length, which is its capacity on input to WrapMessage. */
  class NdefBuffer {
    var buffer: array<uint8>
    var length: uint32

    predicate Valid()
      reads this
    {
      length as int <= buffer.Length
    }

    constructor (capacity: uint32)
      ensures Valid() && length == capacity && fresh(buffer)
    {
      buffer := new uint8[capacity](_ => 0);
      length := capacity;
    }
  }

  /**
   * ndefSystemTest_WrapMessage. `payload` is None for a NULL payload buffer.
   * T2T and T5T get the TLV (ERR_NOMEM, nothing written, when it does not
   * fit); T3T succeeds without writing; other tag types are not implemented.
   */
  method WrapMessage(dt: DeviceType, payload: Option<seq<uint8>>, msg: NdefBuffer?) returns (err: ReturnCode)
    requires payload.Some? ==> |payload.value| + 3 < 0x1_0000_0000
    requires msg != null ==> msg.Valid()
    modifies msg
    modifies if msg != null then {msg.buffer} else {}
    ensures msg != null ==> msg.buffer == old(msg.buffer) && msg.Valid()
    ensures payload.None? || msg == null ==> err == ERR_PARAM
    ensures payload.None? && msg != null ==> unchanged(msg) && unchanged(msg.buffer)
    ensures payload.Some? && msg != null ==>
      var p := payload.value;
      if dt in {NFCA_T2T, NFCV_T5T} && old(msg.length) as int >= |p| + 3 then
        && err == ERR_NONE
        && msg.length as int == |p| + 3
        && msg.buffer[..] == TlvWrap(p) + old(msg.buffer[..])[|p| + 3..]
      else
        && unchanged(msg) && unchanged(msg.buffer)
        && err == (if dt in {NFCA_T2T, NFCV_T5T} then ERR_NOMEM
                   else if dt == NFCF_T3T then ERR_NONE
                   else ERR_NOT_IMPLEMENTED)
  {
    err := ERR_NOT_IMPLEMENTED;
    if payload.None? || msg == null {
      return ERR_PARAM;
    }
    var p := payload.value;
    match dt {
      case NFCA_T2T =>
        err := WriteTlv(p, msg);
      case NFCF_T3T =>
        err := ERR_NONE;
      case NFCV_T5T =>
        err := WriteTlv(p, msg);
      case _ =>
    }
  }

  /** The T2T/T5T branch of WrapMessage. */
  method WriteTlv(p: seq<uint8>, msg: NdefBuffer) returns (err: ReturnCode)
    requires |p| + 3 < 0x1_0000_0000 && msg.Valid()
    modifies msg, msg.buffer
    ensures msg.buffer == old(msg.buffer) && msg.Valid()
    ensures old(msg.length) as int < |p| + 3 ==> err == ERR_NOMEM && unchanged(msg) && unchanged(msg.buffer)
    ensures old(msg.length) as int >= |p| + 3 ==>
      && err == ERR_NONE
      && msg.length as int == |p| + 3
      && msg.buffer[..] == TlvWrap(p) + old(msg.buffer[..])[|p| + 3..]
  {
    if (msg.length as int) < |p| + 3 {
      return ERR_NOMEM;
    }
    var buf := msg.buffer;
    buf[0] := NDEF_MESSAGE_TLV;
    buf[1] := Low8(|p|);
    forall i | 0 <= i < |p| {
      buf[2 + i] := p[i];
    }
    buf[2 + |p|] := TERMINATOR_TLV;
    msg.length := 1 + 1 + |p| + 1;
    assert buf[..] == TlvWrap(p) + old(buf[..])[|p| + 3..];
    err := ERR_NONE;
  }

  // ---------------------------------------------------------------------
  // ndefSystemTest_WriteMessage: where the message goes

  /**
   * The byte offset at which ndefSystemTest_WriteMessage writes the message;
   * `cc2` is byte 2 of a Type 5 tag's capability container, read from the tag.
   */
  function WriteOffset(dt: DeviceType, cc2: uint8): (offset: nat)
  {
    match dt
    case NFCA_T2T => 4 * NDEF_T2T_BLOCK_SIZE
    case NFCF_T3T => NDEF_T3T_BLOCKLEN
    case NFCA_T4T => 0
    case NFCB_T4T => 0
    case NFCV_T5T => if cc2 != 0 then 4 else 8
    case _ => 0
  }

  /**
   * ndefPollerWriteBytes on the tag's memory image: `data` overwrites the
   * bytes from `offset` on, and every other byte is kept.
   */
  function WriteAt(mem: seq<uint8>, offset: nat, data: seq<uint8>): (r: seq<uint8>)
    requires offset + |data| <= |mem|
    ensures |r| == |mem|
  {
    mem[..offset] + data + mem[offset + |data|..]
  }

  /**
   * On a Type 3 tag the AIB is written at 0 and the message at WriteOffset.
   * The message starts at the first byte after the AIB, so the AIB (with the
   * length and checksum UpdateAib put in it) is still whole on the tag after
   * the message write, the message reads back whole, and the rest of the
   * tag is untouched.
   */
  lemma T3TMessageFollowsAib(mem: seq<uint8>, aib: seq<uint8>, msg: seq<uint8>, cc2: uint8)
    requires |aib| == NDEF_T3T_BLOCKLEN && NDEF_T3T_BLOCKLEN + |msg| <= |mem|
    ensures var off := WriteOffset(NFCF_T3T, cc2);
      var tag := WriteAt(WriteAt(mem, 0, aib), off, msg);
      && off == |aib|
      && tag[..off] == aib
      && tag[off..off + |msg|] == msg
      && tag[off + |msg|..] == mem[off + |msg|..]
  {
    var off := WriteOffset(NFCF_T3T, cc2);
    var withAib := WriteAt(mem, 0, aib);
    assert withAib == aib + mem[off..];
    var tag := WriteAt(withAib, off, msg);
    assert tag == aib + msg + mem[off + |msg|..];
  }

  /**
   * No smaller offset would do: a message written anywhere inside the AIB
   * block replaces one of its bytes.
   */
  lemma MessageInsideAibClobbersIt(mem: seq<uint8>, aib: seq<uint8>, msg: seq<uint8>, off: nat)
    requires |aib| == NDEF_T3T_BLOCKLEN && off < NDEF_T3T_BLOCKLEN && off + |msg| <= |mem|
    requires NDEF_T3T_BLOCKLEN <= |mem| && |msg| > 0 && msg[0] != aib[off]
    ensures WriteAt(WriteAt(mem, 0, aib), off, msg)[..NDEF_T3T_BLOCKLEN] != aib
  {
    var tag := WriteAt(WriteAt(mem, 0, aib), off, msg);
    assert tag[off] == msg[0];
    assert tag[..NDEF_T3T_BLOCKLEN][off] != aib[off];
  }

  // ---------------------------------------------------------------------
  // The Type 3 Tag Attribute Information Block update

  /** The sum of a run of bytes, without wrap-around. */
  function Sum(s: seq<uint8>): (n: nat)
    ensures n <= 0xFF * |s|
  {
    if |s| == 0 then 0 else Sum(s[..|s| - 1]) + s[|s| - 1]
  }

  /** An AIB whose bytes 14 (high) and 15 (low) hold the 16-bit sum of bytes 0 to 13. */
  predicate AibChecksumValid(aib: seq<uint8>)
    requires |aib| == NDEF_T3T_BLOCKLEN
  {
    0x100 * aib[14] as int + aib[15] as int == Sum(aib[..NDEF_T3T_ATTRIB_INFO_CHECKSUM_LEN]) % 0x1_0000
  }

  /**
   * The AIB update of ndefSystemTest_WriteMessage: byte 13 takes the low byte
   * of the message length, then bytes 14 and 15 the checksum accumulated in
   * a `uint16_t`. Bytes 0 to 12 are kept.
   */
  method UpdateAib(aib: array<uint8>, messageLength: uint32)
    requires aib.Length == NDEF_T3T_BLOCKLEN
    modifies aib
    ensures aib[..13] == old(aib[..13])
    ensures aib[13] == Low8(messageLength)
    ensures AibChecksumValid(aib[..])
  {
    aib[13] := Low8(messageLength);
    var checksum: uint16 := 0;
    for i := 0 to NDEF_T3T_ATTRIB_INFO_CHECKSUM_LEN
      invariant checksum == Sum(aib[..i]) % 0x1_0000
    {
      assert aib[..i + 1][..i] == aib[..i];
      checksum := (checksum + aib[i]) % 0x1_0000;
    }
    aib[14] := checksum / 0x100;
    aib[15] := checksum % 0x100;
    assert aib[..][..NDEF_T3T_ATTRIB_INFO_CHECKSUM_LEN] == aib[..NDEF_T3T_ATTRIB_INFO_CHECKSUM_LEN];
  }

  /** Fourteen bytes sum to at most 3570, so the 16-bit accumulator never wraps. */
  lemma AibChecksumNeverWraps(aib: seq<uint8>)
    requires |aib| == NDEF_T3T_BLOCKLEN
    ensures Sum(aib[..NDEF_T3T_ATTRIB_INFO_CHECKSUM_LEN]) < 0x1_0000
    ensures AibChecksumValid(aib) <==> 0x100 * aib[14] as int + aib[15] as int == Sum(aib[..NDEF_T3T_ATTRIB_INFO_CHECKSUM_LEN])
  {
  }
}
