/**
 * An NDEF message as the unitary tests use it: an ordered list of records
 * whose first record carries MB and whose last carries ME, structural
 * comparison of two messages (ndefMessageMatch), and the concatenated wire
 * form behind the message encode/decode tests.
 */
module NdefMessage {
  import opened ByteCodec
  import opened StErrno
  import opened NdefRecord

  // ---------------------------------------------------------------------
  // Building a message (ndefMessageInit / ndefMessageAppend)

  /** The MB/ME placement the tests expect: MB on the head only, ME on the tail only. */
  predicate FlagsPlaced(recs: seq<Record>)
  {
    forall i :: 0 <= i < |recs| ==>
      MB(recs[i].header) == (if i == 0 then 1 else 0) && ME(recs[i].header) == (if i == |recs| - 1 then 1 else 0)
  }

  /** `a` and `b` differ at most in the header bits named false here. */
  predicate SameBut(a: Record, b: Record, keepMB: bool, keepME: bool)
  {
    && a.recType == b.recType && a.id == b.id && a.payload == b.payload && a.ndeftype == b.ndeftype
    && CF(a.header) == CF(b.header) && SR(a.header) == SR(b.header)
    && IL(a.header) == IL(b.header) && TNF(a.header) == TNF(b.header)
    && (keepMB ==> MB(a.header) == MB(b.header))
    && (keepME ==> ME(a.header) == ME(b.header))
  }

  /**
   * ndefMessageAppend: the record becomes the new tail with ME set (and MB
   * set only when it is also the head); the previous tail loses its ME bit.
   */
  function AppendRecord(recs: seq<Record>, r: Record): seq<Record>
  {
    var tail := r.(header := WithME(WithMB(r.header, if |recs| == 0 then 1 else 0), 1));
    if |recs| == 0 then [tail]
    else
      var last := recs[|recs| - 1];
      recs[..|recs| - 1] + [last.(header := WithME(last.header, 0))] + [tail]
  }

  /**
   * What the append tests assert: the count grows by one, the flags stay
   * in place, the appended record keeps everything but MB/ME, the previous
   * tail changes only its ME bit, and earlier records do not change.
   */
  lemma AppendPlacesFlags(recs: seq<Record>, r: Record)
    requires FlagsPlaced(recs)
    ensures var out := AppendRecord(recs, r);
      && |out| == |recs| + 1
      && FlagsPlaced(out)
      && SameBut(out[|recs|], r, false, false)
      && (forall i :: 0 <= i < |recs| - 1 ==> out[i] == recs[i])
      && (|recs| > 0 ==> SameBut(out[|recs| - 1], recs[|recs| - 1], true, false))
  {
    var out := AppendRecord(recs, r);
    forall i | 0 <= i < |out|
      ensures MB(out[i].header) == (if i == 0 then 1 else 0)
      ensures ME(out[i].header) == (if i == |out| - 1 then 1 else 0)
    {
      if i < |recs| - 1 {
        assert out[i] == recs[i];
      }
    }
  }

  /** ndefTest_Message3records: three appended reset records carry (MB,ME) = (1,0), (0,0), (0,1). */
  lemma ThreeRecordFlags()
    ensures var m := AppendRecord(AppendRecord(AppendRecord([], EmptyRecord), EmptyRecord), EmptyRecord);
      && |m| == 3
      && MB(m[0].header) == 1 && ME(m[0].header) == 0
      && MB(m[1].header) == 0 && ME(m[1].header) == 0
      && MB(m[2].header) == 0 && ME(m[2].header) == 1
  {
    var m1 := AppendRecord([], EmptyRecord);
    AppendPlacesFlags([], EmptyRecord);
    var m2 := AppendRecord(m1, EmptyRecord);
    AppendPlacesFlags(m1, EmptyRecord);
    AppendPlacesFlags(m2, EmptyRecord);
  }

  /** An ndefMessage: the list of records, changed in place by Append. */
  class Message {
    var records: seq<Record>

    predicate Valid()
      reads this
    {
      FlagsPlaced(records)
    }

    /** ndefMessageInit: an empty message. */
    constructor ()
      ensures records == [] && Valid()
    {
      records := [];
    }

    /** ndefMessageGetRecordCount. */
    function RecordCount(): nat
      reads this
    {
      |records|
    }

    /** ndefMessageAppend. */
    method Append(r: Record)
      requires Valid()
      modifies this
      ensures records == AppendRecord(old(records), r)
      ensures Valid() && RecordCount() == old(RecordCount()) + 1
    {
      AppendPlacesFlags(records, r);
      records := AppendRecord(records, r);
    }
  }

  // ---------------------------------------------------------------------
  // ndefMessageMatch

  /** The documented contract: same record count and every position-paired record matches. */
  predicate MessagesMatch(m1: seq<Record>, m2: seq<Record>)
  {
    |m1| == |m2| && forall i :: 0 <= i < |m1| ==> RecordMatch(Some(m1[i]), Some(m2[i]))
  }

  /**
   * ndefMessageMatch: compares the record counts, then walks both lists in
   * step and stops at the first pair that does not match.
   */
  method MessageMatch(m1: seq<Record>, m2: seq<Record>) returns (b: bool)
    ensures b == MessagesMatch(m1, m2)
  {
    if |m1| != |m2| {
      return false;
    }
    var i := 0;
    while i < |m1| && i < |m2|
      invariant 0 <= i <= |m1|
      invariant forall k :: 0 <= k < i ==> RecordMatch(Some(m1[k]), Some(m2[k]))
    {
      if !RecordMatch(Some(m1[i]), Some(m2[i])) {
        return false;
      }
      i := i + 1;
    }
    if (i == |m1|) != (i == |m2|) {
      return false;
    }
    return true;
  }

  lemma MessagesMatchReflexive(m: seq<Record>)
    ensures MessagesMatch(m, m)
  {
    forall i | 0 <= i < |m|
      ensures RecordMatch(Some(m[i]), Some(m[i]))
    {
      MatchReflexive(m[i]);
    }
  }

  lemma MessagesMatchSymmetric(m1: seq<Record>, m2: seq<Record>)
    ensures MessagesMatch(m1, m2) == MessagesMatch(m2, m1)
  {
    if |m1| == |m2| {
      forall i | 0 <= i < |m1|
        ensures RecordMatch(Some(m1[i]), Some(m2[i])) == RecordMatch(Some(m2[i]), Some(m1[i]))
      {
        MatchSymmetric(m1[i], m2[i]);
      }
    }
  }

  // ---------------------------------------------------------------------
  // Message wire form: the records' encodings back to back

  function EncodeMessage(recs: seq<Record>): seq<uint8>
  {
    if |recs| == 0 then [] else Encode(recs[0]) + EncodeMessage(recs[1..])
  }

  /** Decodes records until the buffer is used up; None when a record is cut short. */
  function DecodeMessage(b: seq<uint8>): Option<seq<Record>>
    decreases |b|
  {
    if |b| == 0 then Some([])
    else match Decode(b)
      case None => None
      case Some((r, n)) =>
        match DecodeMessage(b[n..])
        case None => None
        case Some(rest) => Some([r] + rest)
  }

  /** The record a decoder gives back for `r`: its payload as a plain byte view, no cached typed value. */
  function Decoded(r: Record): Record
  {
    r.(payload := Bytes(r.payload.Contents()), ndeftype := None)
  }

  /** A message decoder reads an encoded record off the front and goes on with the bytes after it. */
  lemma DecodeFirstRecord(r: Record, tail: seq<uint8>)
    requires WireConsistent(r)
    ensures DecodeMessage(Encode(r) + tail)
         == if DecodeMessage(tail).Some? then Some([Decoded(r)] + DecodeMessage(tail).value) else None
  {
    var b := Encode(r) + tail;
    DecodeEncoded(r, tail);
    assert b[WireLength(r)..] == tail;
  }

  /** Decoding an encoded message gives back each record in its decoded form. */
  lemma {:induction false} DecodeEncodedMessage(recs: seq<Record>)
    requires forall i :: 0 <= i < |recs| ==> WireConsistent(recs[i])
    ensures var d := DecodeMessage(EncodeMessage(recs));
      && d.Some? && |d.value| == |recs|
      && (forall i :: 0 <= i < |recs| ==> d.value[i] == Decoded(recs[i]))
    decreases |recs|
  {
    if |recs| > 0 {
      var r, rest := recs[0], recs[1..];
      DecodeEncodedMessage(rest);
      var tailBytes := EncodeMessage(rest);
      var b := EncodeMessage(recs);
      assert b == Encode(r) + tailBytes;
      DecodeFirstRecord(r, tailBytes);
      DecodedCons(r, rest, DecodeMessage(tailBytes).value);
      assert recs == [r] + rest;
    }
  }

  /** Prepending a record and its decoded view keeps the two lists pointwise related. */
  lemma DecodedCons(r: Record, rest: seq<Record>, dt: seq<Record>)
    requires |dt| == |rest| && forall i :: 0 <= i < |rest| ==> dt[i] == Decoded(rest[i])
    ensures var d, recs := [Decoded(r)] + dt, [r] + rest;
      forall i :: 0 <= i < |recs| ==> d[i] == Decoded(recs[i])
  {
    var d, recs := [Decoded(r)] + dt, [r] + rest;
    forall i | 0 < i < |recs|
      ensures d[i] == Decoded(recs[i])
    {
      assert recs[i] == rest[i - 1];
    }
  }

  /** Re-encoding the decoded records gives the bytes of the original ones. */
  lemma {:induction false} EncodeDecodedRecords(recs: seq<Record>, d: seq<Record>)
    requires forall i :: 0 <= i < |recs| ==> recs[i].ndeftype.None?
    requires |d| == |recs| && forall i :: 0 <= i < |recs| ==> d[i] == Decoded(recs[i])
    ensures EncodeMessage(d) == EncodeMessage(recs)
    decreases |recs|
  {
    if |recs| > 0 {
      EncodeDecodedRecords(recs[1..], d[1..]);
      ReencodeDecoded(recs[0]);
    }
  }

  /**
   * Message round trip (ndefTest_Message1record): decoding an encoded message
   * gives back, record for record, what the encoder was given, so the two
   * messages match and re-encoding reproduces the same bytes.
   */
  lemma MessageRoundTrip(recs: seq<Record>)
    requires forall i :: 0 <= i < |recs| ==> WireConsistent(recs[i])
    ensures var d := DecodeMessage(EncodeMessage(recs));
      && d.Some? && |d.value| == |recs|
      && (forall i :: 0 <= i < |recs| ==> d.value[i] == Decoded(recs[i]))
      && MessagesMatch(recs, d.value)
      && EncodeMessage(d.value) == EncodeMessage(recs)
  {
    DecodeEncodedMessage(recs);
    var d := DecodeMessage(EncodeMessage(recs)).value;
    forall i | 0 <= i < |recs|
      ensures RecordMatch(Some(recs[i]), Some(d[i]))
    {
      RecordMatchMeaning(recs[i], d[i]);
    }
    EncodeDecodedRecords(recs, d);
  }

  /**
   * An untyped record and its decoded form (the payload view as plain bytes,
   * a NULL view as no bytes) encode to the same bytes.
   */
  lemma ReencodeDecoded(r: Record)
    requires r.ndeftype.None?
    ensures Encode(Decoded(r)) == Encode(r)
  {
    assert WireLength(Decoded(r)) == WireLength(r);
  }
}
