/**
 * The two message checkers of the NDEF unitary tests and the guard macros
 * they are written with.
 *
 * ndefMessageConformance checks the rules of section 2.5 of the NFC Forum
 * NDEF Technical Specification ("NDEF Mechanisms Test Requirements"),
 * ndefMessageTestRequirements those of section 3.3 ("The NDEF Specification
 * Test Requirements"). A message is `None` for a NULL message pointer and
 * otherwise its record list; a cursor equal to the list length stands for
 * a NULL record pointer, and reading a field through it ends the walk in
 * `NullRecordRead`.
 */
module NdefChecks {
  import opened StErrno
  import opened NdefRecord

  type MessageRef = Option<seq<Record>>

  // ---------------------------------------------------------------------
  // Guard macros

  /** MY_ASSERT(cond, err): returns `err` when `cond` is false, otherwise falls through (None). */
  function MyAssert(cond: bool, err: ReturnCode): (r: Option<ReturnCode>)
    ensures r == None <==> cond
    ensures r != None ==> r.value == err
  {
    if !cond then Some(err) else None
  }

  /**
   * CHECK_RANGE(value, min, max): returns ERR_PARAM when the value is out of
   * range; the lower bound is only looked at when it is not zero.
   */
  function CheckRange(value: int, min: int, max: int): (r: Option<ReturnCode>)
    ensures r != None ==> r.value == ERR_PARAM
    ensures min == 0 ==> (r == None <==> value <= max)
    ensures min != 0 ==> (r == None <==> min <= value <= max)
  {
    if (min != 0 && value < min) || value > max then Some(ERR_PARAM) else None
  }

  /** No CHECK_RANGE the checkers apply to a header field can fail: TNF 7 passes the 0..7 range. */
  lemma HeaderRangesNeverFail(h: bv8)
    ensures CheckRange(MB(h), 0, 1) == None && CheckRange(ME(h), 0, 1) == None
    ensures CheckRange(CF(h), 0, 1) == None && CheckRange(SR(h), 0, 1) == None
    ensures CheckRange(IL(h), 0, 1) == None
    ensures CheckRange(TNF(h), TNF_EMPTY, TNF_RESERVED) == None
  {
  }

  // ---------------------------------------------------------------------
  // ndefMessageConformance (section 2.5)

  /**
   * The rules ndefMessageConformance enforces on a non-empty list, in its
   * own words: M2 (MB on the first record), M3 (ME on the last, when it is
   * not the first), R1 (CF on the first, cleared on all others), R3 (every
   * record carries the first record's type), R6 (later records have no
   * type and no IL), R7 (later records have TNF UNCHANGED), R14 (no ME on
   * the first record).
   */
  predicate MechanismRules(recs: seq<Record>)
    requires |recs| > 0
  {
    var first, last := recs[0], recs[|recs| - 1];
    && MB(first.header) == 1
    && (|recs| > 1 ==> ME(last.header) == 1)
    && CF(first.header) == 1
    && (forall i :: 0 < i < |recs| ==> CF(recs[i].header) == 0)
    && (forall i :: 0 <= i < |recs| ==> recs[i].recType == first.recType)
    && (forall i :: 0 < i < |recs| ==> recs[i].TypeLength() == 0 && IL(recs[i].header) == 0)
    && (forall i :: 0 < i < |recs| ==> TNF(recs[i].header) == TNF_UNCHANGED)
    && ME(first.header) == 0
  }

  /**
   * What ndefMessageConformance ends in: ERR_NOMSG without records, ERR_SYNTAX
   * when a rule fails, and otherwise the R15 walk reads ME through the NULL
   * pointer it stops on.
   */
  function ConformanceOutcome(m: MessageRef): Outcome
  {
    if m.None? || |m.value| == 0 then Returns(ERR_NOMSG)
    else if !MechanismRules(m.value) then Returns(ERR_SYNTAX)
    else NullRecordRead
  }

  /** ndefMessageConformance, walk by walk as the source does it. */
  method Conformance(m: MessageRef) returns (o: Outcome)
    ensures o == ConformanceOutcome(m)
  {
    if m.None? {
      return Returns(ERR_NOMSG);
    }
    var recs := m.value;
    var n := |recs|;
    // M2
    if n == 0 {
      return Returns(ERR_NOMSG);
    }
    var fail := MyAssert(MB(recs[0].header) == 1, ERR_SYNTAX);
    if fail.Some? {
      return Returns(fail.value);
    }
    // M3: walk to the last record
    var i := 0;
    while i + 1 < n
      invariant 0 <= i < n
    {
      i := i + 1;
    }
    if i != 0 {
      fail := MyAssert(ME(recs[i].header) == 1, ERR_SYNTAX);
      if fail.Some? {
        return Returns(fail.value);
      }
    }
    // field ranges
    i := 0;
    while i < n
      invariant 0 <= i <= n
    {
      var h := recs[i].header;
      HeaderRangesNeverFail(h);
      fail := CheckRange(MB(h), 0, 1);
      if fail.Some? { return Returns(ERR_PARAM); }
      fail := CheckRange(ME(h), 0, 1);
      if fail.Some? { return Returns(ERR_PARAM); }
      fail := CheckRange(CF(h), 0, 1);
      if fail.Some? { return Returns(ERR_PARAM); }
      fail := CheckRange(SR(h), 0, 1);
      if fail.Some? { return Returns(ERR_PARAM); }
      fail := CheckRange(IL(h), 0, 1);
      if fail.Some? { return Returns(ERR_PARAM); }
      fail := CheckRange(TNF(h), TNF_EMPTY, TNF_RESERVED);
      if fail.Some? { return Returns(ERR_PARAM); }
      i := i + 1;
    }
    // R1: CF on the first record, cleared on the others
    fail := MyAssert(CF(recs[0].header) == 1, ERR_SYNTAX);
    if fail.Some? {
      return Returns(fail.value);
    }
    i := 1;
    while i < n
      invariant 1 <= i <= n
      invariant forall k :: 0 < k < i ==> CF(recs[k].header) == 0
    {
      fail := MyAssert(CF(recs[i].header) == 0, ERR_SYNTAX);
      if fail.Some? {
        return Returns(fail.value);
      }
      i := i + 1;
    }
    // R3: every record carries the first record's type
    var typeLength := recs[0].TypeLength();
    var recType := recs[0].recType;
    i := 0;
    while i < n
      invariant 0 <= i <= n
      invariant forall k :: 0 <= k < i ==> recs[k].recType == recType
    {
      fail := MyAssert(typeLength == recs[i].TypeLength(), ERR_SYNTAX);
      if fail.Some? {
        return Returns(fail.value);
      }
      if !ByteCmpEqual(recType, recs[i].recType, typeLength) {
        return Returns(ERR_SYNTAX);
      }
      assert recType == recType[..typeLength] && recs[i].recType == recs[i].recType[..typeLength];
      i := i + 1;
    }
    // R6: no type and no IL after the first record
    i := 1;
    while i < n
      invariant 1 <= i <= n
      invariant forall k :: 0 < k < i ==> recs[k].TypeLength() == 0 && IL(recs[k].header) == 0
    {
      fail := MyAssert(recs[i].TypeLength() == 0, ERR_SYNTAX);
      if fail.Some? {
        return Returns(fail.value);
      }
      fail := MyAssert(IL(recs[i].header) == 0, ERR_SYNTAX);
      if fail.Some? {
        return Returns(fail.value);
      }
      i := i + 1;
    }
    // R7: TNF UNCHANGED after the first record
    i := 1;
    while i < n
      invariant 1 <= i <= n
      invariant forall k :: 0 < k < i ==> TNF(recs[k].header) == TNF_UNCHANGED
    {
      fail := MyAssert(TNF(recs[i].header) == TNF_UNCHANGED, ERR_SYNTAX);
      if fail.Some? {
        return Returns(fail.value);
      }
      i := i + 1;
    }
    // R14: no ME on the first record
    fail := MyAssert(ME(recs[0].header) == 0, ERR_SYNTAX);
    if fail.Some? {
      return Returns(fail.value);
    }
    // R15: the walk stops on NULL, which is never the first record
    i := 1;
    while i < n
      invariant 1 <= i <= n
    {
      i := i + 1;
    }
    if i != 0 {
      // the cursor has left the list (i == n): MY_ASSERT reads ME through NULL
      return NullRecordRead;
    }
    return Returns(ERR_NONE);
  }

  /** The documented success result is never reached: a message either fails or ends in the NULL read. */
  lemma ConformanceNeverSucceeds(m: MessageRef)
    ensures ConformanceOutcome(m) != Returns(ERR_NONE)
    ensures ConformanceOutcome(m) == NullRecordRead <==> m.Some? && |m.value| > 0 && MechanismRules(m.value)
  {
  }

  /** An ordinary one-record message (MB = ME = 1, CF = 0) is rejected by the R1 check. */
  lemma OrdinaryRecordRejected(r: Record)
    requires MB(r.header) == 1 && ME(r.header) == 1 && CF(r.header) == 0
    ensures ConformanceOutcome(Some([r])) == Returns(ERR_SYNTAX)
  {
  }

  /**
   * R3 and R6 together leave no room for a typed chunk: a message of two or
   * more records that passes them has an initial record with no type.
   */
  lemma ChunkedMessagesAreUntyped(recs: seq<Record>)
    requires |recs| > 1 && MechanismRules(recs)
    ensures recs[0].recType == []
  {
    assert recs[1].recType == recs[0].recType;
  }

  /** The only one-record messages the rules accept have MB = 1, ME = 0 and CF = 1. */
  lemma SingleRecordRules(r: Record)
    ensures MechanismRules([r]) <==> MB(r.header) == 1 && ME(r.header) == 0 && CF(r.header) == 1
  {
  }

  // ---------------------------------------------------------------------
  // ndefMessageTestRequirements (section 3.3)

  /**
   * The checks applied to one record, in the source's order, and the first
   * that fails: R1 and R6 range checks, R7 (TNF EMPTY means no type and no
   * payload), R8/R9 (TNF UNKNOWN or UNCHANGED means no type), R10 (TNF
   * RESERVED refused), R14 (an empty payload has no buffer), and the R15
   * switch, whose RESERVED case R10 has already caught.
   */
  function RecordCheck(r: Record): (e: Option<ReturnCode>)
  {
    var h := r.header;
    var tnf := TNF(h);
    if CheckRange(SR(h), 0, 1).Some? then CheckRange(SR(h), 0, 1)
    else if CheckRange(tnf, TNF_EMPTY, TNF_RESERVED).Some? then CheckRange(tnf, TNF_EMPTY, TNF_RESERVED)
    else if tnf == 0 && r.TypeLength() != 0 then Some(ERR_SYNTAX)
    else if tnf == 0 && r.payload.Length() != 0 then Some(ERR_SYNTAX)
    else if tnf == 0 && !r.payload.Null? then Some(ERR_SYNTAX)
    else if tnf == 5 && r.TypeLength() != 0 then Some(ERR_SYNTAX)
    else if tnf == 6 && r.TypeLength() != 0 then Some(ERR_SYNTAX)
    else if tnf == 7 then Some(ERR_SYNTAX)
    else if GetPayloadLength(r) == 0 && !r.payload.Null? then Some(ERR_SYNTAX)
    else None
  }

  /** The rules of section 3.3 that the checker enforces on a record, stated declaratively. */
  predicate MeetsRequirements(r: Record)
  {
    var tnf := TNF(r.header);
    && tnf != TNF_RESERVED
    && (tnf == TNF_EMPTY ==> r.TypeLength() == 0 && r.payload.Null?)
    && (tnf == TNF_UNKNOWN || tnf == TNF_UNCHANGED ==> r.TypeLength() == 0)
    && (GetPayloadLength(r) == 0 ==> r.payload.Null?)
  }

  /** The per-record check fails exactly when a rule is broken, and always with ERR_SYNTAX. */
  lemma RecordCheckMeaning(r: Record)
    ensures RecordCheck(r) == None <==> MeetsRequirements(r)
    ensures RecordCheck(r) != None ==> RecordCheck(r) == Some(ERR_SYNTAX)
  {
    HeaderRangesNeverFail(r.header);
  }

  /** TNF 7 gets through the range check and is refused by R10. */
  lemma ReservedTnfRejected(r: Record)
    requires TNF(r.header) == TNF_RESERVED
    ensures CheckRange(TNF(r.header), TNF_EMPTY, TNF_RESERVED) == None
    ensures RecordCheck(r) == Some(ERR_SYNTAX)
  {
  }

  /** Index of the first record whose check fails, or |recs|. */
  function FirstFailing(recs: seq<Record>): (k: nat)
    ensures k <= |recs|
    ensures forall i :: 0 <= i < k ==> RecordCheck(recs[i]) == None
    ensures k < |recs| ==> RecordCheck(recs[k]) != None
  {
    if |recs| == 0 then 0
    else if RecordCheck(recs[0]) != None then 0
    else 1 + FirstFailing(recs[1..])
  }

  /**
   * What ndefMessageTestRequirements ends in: ERR_NOMSG for a NULL message,
   * the first failing record's error, and otherwise ERR_NONE, except that an
   * empty list reads `next` through its NULL head.
   */
  function RequirementsOutcome(m: MessageRef): Outcome
  {
    if m.None? then Returns(ERR_NOMSG)
    else
      var recs := m.value;
      var k := FirstFailing(recs);
      if k < |recs| then Returns(RecordCheck(recs[k]).value)
      else if |recs| == 0 then NullRecordRead
      else Returns(ERR_NONE)
  }

  /** ndefMessageTestRequirements. */
  method TestRequirements(m: MessageRef) returns (o: Outcome)
    ensures o == RequirementsOutcome(m)
  {
    if m.None? {
      return Returns(ERR_NOMSG);
    }
    var recs := m.value;
    var i := 0;
    while i < |recs|
      invariant 0 <= i <= |recs|
      invariant forall k :: 0 <= k < i ==> RecordCheck(recs[k]) == None
    {
      var fail := RecordCheck(recs[i]);
      if fail.Some? {
        assert FirstFailing(recs) == i by { FirstFailingIs(recs, i); }
        return Returns(fail.value);
      }
      i := i + 1;
    }
    assert FirstFailing(recs) == |recs| by { FirstFailingIs(recs, |recs|); }
    // R16: start from the second record
    if |recs| == 0 {
      return NullRecordRead;
    }
    i := 1;
    while i < |recs|
      invariant 1 <= i <= |recs|
    {
      i := i + 1;
    }
    return Returns(ERR_NONE);
  }

  /** FirstFailing is the least failing index. */
  lemma {:induction false} FirstFailingIs(recs: seq<Record>, k: nat)
    requires k <= |recs|
    requires forall i :: 0 <= i < k ==> RecordCheck(recs[i]) == None
    requires k < |recs| ==> RecordCheck(recs[k]) != None
    ensures FirstFailing(recs) == k
    decreases k
  {
    if k > 0 {
      FirstFailingIs(recs[1..], k - 1);
    }
  }

  /**
   * The checker's verdict in terms of the rules: a message with records
   * succeeds exactly when every record meets them, and otherwise fails with
   * ERR_SYNTAX; the empty list never gets a return code.
   */
  lemma RequirementsMeaning(recs: seq<Record>)
    ensures |recs| == 0 ==> RequirementsOutcome(Some(recs)) == NullRecordRead
    ensures |recs| > 0 ==>
      (RequirementsOutcome(Some(recs)) == Returns(ERR_NONE) <==> forall i :: 0 <= i < |recs| ==> MeetsRequirements(recs[i]))
    ensures |recs| > 0 && RequirementsOutcome(Some(recs)) != Returns(ERR_NONE) ==>
      RequirementsOutcome(Some(recs)) == Returns(ERR_SYNTAX)
  {
    forall i | 0 <= i < |recs|
      ensures RecordCheck(recs[i]) == None <==> MeetsRequirements(recs[i])
    {
      RecordCheckMeaning(recs[i]);
    }
    var k := FirstFailing(recs);
    if k < |recs| {
      RecordCheckMeaning(recs[k]);
    }
  }
}
