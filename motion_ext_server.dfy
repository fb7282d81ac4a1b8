/**
 * The MOTENV1 accelerometer-event service (motion_ext_server_app.c): the
 * hardware feature bitmask `HWExtFeaturesStatus`, the multi-event mode,
 * the pedometer step count, and the event notifications.
 *
 * Every sensor driver call that can fail is an input: a `Driver` says which
 * features the sensor agrees to enable and which to disable. The tick
 * (HAL_GetTick) is a parameter, and BLE updates go to a `Radio` log.
 * Threshold and output-data-rate calls, whose results the source ignores,
 * are not modelled.
 */
module MotionExt {
  import opened ByteCodec
  import opened StErrno
  import opened BleLink
  import ConfigServer

  // ---------------------------------------------------------------------
  // Features and the bitmask

  /** The EXT_HWF_* features. */
  datatype Feature =
    | PEDOMETER
    | FREE_FALL
    | DOUBLE_TAP
    | SINGLE_TAP
    | WAKE_UP
    | TILT
    | ORIENTATION_6D
    | MULTIPLE_EVENTS

  /** The EXT_HWF_* bit of each feature. */
  function Bit(f: Feature): bv32
  {
    match f
    case PEDOMETER => 0x01
    case FREE_FALL => 0x02
    case DOUBLE_TAP => 0x04
    case SINGLE_TAP => 0x08
    case WAKE_UP => 0x10
    case TILT => 0x20
    case ORIENTATION_6D => 0x40
    case MULTIPLE_EVENTS => 0x80
  }

  /** The feature a `uint8_t` feature code names, if any. */
  function FeatureOfCode(code: uint8): Option<Feature>
  {
    if code == 0x01 then Some(PEDOMETER)
    else if code == 0x02 then Some(FREE_FALL)
    else if code == 0x04 then Some(DOUBLE_TAP)
    else if code == 0x08 then Some(SINGLE_TAP)
    else if code == 0x10 then Some(WAKE_UP)
    else if code == 0x20 then Some(TILT)
    else if code == 0x40 then Some(ORIENTATION_6D)
    else if code == 0x80 then Some(MULTIPLE_EVENTS)
    else None
  }

  /** Feature codes and features correspond one to one, and every code is a single bit. */
  lemma FeatureCodes(f: Feature, code: uint8)
    ensures FeatureOfCode(Bit(f) as int) == Some(f)
    ensures FeatureOfCode(code) == Some(f) ==> code == Bit(f) as int
    ensures Bit(f) & (Bit(f) - 1) == 0 && Bit(f) != 0
  {
  }

  /** EXT_CHECK_HW_FEATURE. */
  predicate Check(status: bv32, f: Feature)
  {
    status & Bit(f) != 0
  }

  /** EXT_ON_HW_FEATURE. */
  function On(status: bv32, f: Feature): bv32
  {
    status | Bit(f)
  }

  /** EXT_OFF_HW_FEATURE. */
  function Off(status: bv32, f: Feature): bv32
  {
    status & !Bit(f)
  }

  /** Each feature has a bit of its own. */
  lemma BitsDistinct(f: Feature, g: Feature)
    ensures Bit(f) != 0
    ensures f != g ==> Bit(f) & Bit(g) == 0
  {
  }

  /** Every feature bit lies in the low byte. */
  lemma NoBitOutsideByte(status: bv32, f: Feature)
    ensures status & 0xFF == 0 ==> !Check(status, f)
  {
    assert Bit(f) & 0xFF == Bit(f);
    LowByteBit(status, Bit(f));
  }

  lemma LowByteBit(s: bv32, b: bv32)
    requires b & 0xFF == b
    ensures s & 0xFF == 0 ==> s & b == 0
  {
  }

  lemma OrBit(s: bv32, b: bv32, c: bv32)
    ensures ((s | b) & c != 0) == (s & c != 0 || b & c != 0)
  {
  }

  lemma AndNotSelf(s: bv32, b: bv32)
    ensures (s & !b) & b == 0
  {
  }

  lemma AndNotDisjoint(s: bv32, b: bv32, c: bv32)
    requires b & c == 0
    ensures (s & !b) & c == s & c
  {
  }

  lemma OnBit(status: bv32, f: Feature, g: Feature)
    ensures Check(On(status, f), g) == (g == f || Check(status, g))
  {
    BitsDistinct(f, g);
    OrBit(status, Bit(f), Bit(g));
  }

  lemma OffBit(status: bv32, f: Feature, g: Feature)
    ensures Check(Off(status, f), g) == (g != f && Check(status, g))
  {
    if g == f {
      AndNotSelf(status, Bit(f));
    } else {
      BitsDistinct(f, g);
      AndNotDisjoint(status, Bit(f), Bit(g));
    }
  }

  lemma OtherBitsKept(status: bv32, f: Feature)
    ensures On(status, f) & !Bit(f) == status & !Bit(f)
    ensures Off(status, f) & !Bit(f) == status & !Bit(f)
  {
  }

  /** ON sets exactly the given bit and OFF clears exactly that bit; every other bit is left alone. */
  lemma OnOffExact(status: bv32, f: Feature, g: Feature)
    ensures Check(On(status, f), g) == (g == f || Check(status, g))
    ensures Check(Off(status, f), g) == (g != f && Check(status, g))
    ensures On(status, f) & !Bit(f) == status & !Bit(f)
    ensures Off(status, f) & !Bit(f) == status & !Bit(f)
  {
    OnBit(status, f, g);
    OffBit(status, f, g);
    OtherBitsKept(status, f);
  }

  /** Which sensor enable and disable calls succeed. */
  datatype Driver = Driver(enableOk: set<Feature>, disableOk: set<Feature>)

  /** `if (EXT_CHECK_HW_FEATURE(f)) Disable_f()`: the bit is cleared if it is set and the sensor disables the feature. */
  function DisableIfSet(status: bv32, f: Feature, drv: Driver): bv32
  {
    if Check(status, f) && f in drv.disableOk then Off(status, f) else status
  }

  /** `Enable_f()`: the bit is set if the sensor enables the feature. */
  function EnableIfOk(status: bv32, f: Feature, drv: Driver): bv32
  {
    if f in drv.enableOk then On(status, f) else status
  }

  /** The bitmask after DisableExtFeatures, which walks the seven single events in this order. */
  function AfterDisableAll(status: bv32, drv: Driver): bv32
  {
    var s1 := DisableIfSet(status, PEDOMETER, drv);
    var s2 := DisableIfSet(s1, FREE_FALL, drv);
    var s3 := DisableIfSet(s2, DOUBLE_TAP, drv);
    var s4 := DisableIfSet(s3, SINGLE_TAP, drv);
    var s5 := DisableIfSet(s4, WAKE_UP, drv);
    var s6 := DisableIfSet(s5, TILT, drv);
    DisableIfSet(s6, ORIENTATION_6D, drv)
  }

  /** The bitmask after EnableExtFeatures, which enables six features in this order. */
  function AfterEnableAll(status: bv32, drv: Driver): bv32
  {
    var s1 := EnableIfOk(status, PEDOMETER, drv);
    var s2 := EnableIfOk(s1, TILT, drv);
    var s3 := EnableIfOk(s2, FREE_FALL, drv);
    var s4 := EnableIfOk(s3, SINGLE_TAP, drv);
    var s5 := EnableIfOk(s4, DOUBLE_TAP, drv);
    EnableIfOk(s5, ORIENTATION_6D, drv)
  }

  lemma DisableStep(status: bv32, f: Feature, g: Feature, drv: Driver)
    ensures Check(DisableIfSet(status, f, drv), g)
         == if g == f then Check(status, f) && f !in drv.disableOk else Check(status, g)
  {
    OffBit(status, f, g);
  }

  lemma EnableStep(status: bv32, f: Feature, g: Feature, drv: Driver)
    ensures Check(EnableIfOk(status, f, drv), g) == if g == f then Check(status, f) || f in drv.enableOk else Check(status, g)
  {
    OnBit(status, f, g);
  }

  /** Two consecutive steps of DisableExtFeatures. */
  lemma DisableTwoSteps(status: bv32, a: Feature, b: Feature, drv: Driver, f: Feature)
    ensures Check(DisableIfSet(DisableIfSet(status, a, drv), b, drv), f)
         == (Check(status, f) && !((f == a || f == b) && f in drv.disableOk))
  {
    DisableStep(status, a, f, drv);
    DisableStep(DisableIfSet(status, a, drv), b, f, drv);
  }

  /**
   * DisableExtFeatures never touches MULTIPLE_EVENTS and clears a single
   * event exactly when it was set and the sensor disables it.
   */
  lemma DisableAllEffect(status: bv32, drv: Driver, f: Feature)
    ensures Check(AfterDisableAll(status, drv), f)
         == if f == MULTIPLE_EVENTS then Check(status, f) else Check(status, f) && f !in drv.disableOk
  {
    var s2 := DisableIfSet(DisableIfSet(status, PEDOMETER, drv), FREE_FALL, drv);
    var s3 := DisableIfSet(s2, DOUBLE_TAP, drv);
    var s5 := DisableIfSet(DisableIfSet(s3, SINGLE_TAP, drv), WAKE_UP, drv);
    DisableTwoSteps(status, PEDOMETER, FREE_FALL, drv, f);
    DisableStep(s2, DOUBLE_TAP, f, drv);
    DisableTwoSteps(s3, SINGLE_TAP, WAKE_UP, drv, f);
    DisableTwoSteps(s5, TILT, ORIENTATION_6D, drv, f);
  }

  /**
   * EnableExtFeatures never enables WAKE_UP or MULTIPLE_EVENTS and sets
   * each of the other six exactly when it was set or the sensor enables it.
   */
  lemma EnableAllEffect(status: bv32, drv: Driver, f: Feature)
    ensures Check(AfterEnableAll(status, drv), f)
         == if f in {WAKE_UP, MULTIPLE_EVENTS} then Check(status, f) else Check(status, f) || f in drv.enableOk
  {
    var e1 := EnableIfOk(status, PEDOMETER, drv);
    var e2 := EnableIfOk(e1, TILT, drv);
    var e3 := EnableIfOk(e2, FREE_FALL, drv);
    var e4 := EnableIfOk(e3, SINGLE_TAP, drv);
    var e5 := EnableIfOk(e4, DOUBLE_TAP, drv);
    EnableStep(status, PEDOMETER, f, drv);
    EnableStep(e1, TILT, f, drv);
    EnableStep(e2, FREE_FALL, f, drv);
    EnableStep(e3, SINGLE_TAP, f, drv);
    EnableStep(e4, DOUBLE_TAP, f, drv);
    EnableStep(e5, ORIENTATION_6D, f, drv);
  }

  // ---------------------------------------------------------------------
  // Event codes and notification packets

  const ACC_NOT_USED: uint8 := 0x00
  const ACC_6D_OR_TOP: uint8 := 0x01
  const ACC_6D_OR_LEFT: uint8 := 0x02
  const ACC_6D_OR_BOTTOM: uint8 := 0x03
  const ACC_6D_OR_RIGTH: uint8 := 0x04
  const ACC_6D_OR_UP: uint8 := 0x05
  const ACC_6D_OR_DOWN: uint8 := 0x06
  const ACC_TILT: uint8 := 0x08
  const ACC_FREE_FALL: uint8 := 0x10
  const ACC_SINGLE_TAP: uint8 := 0x20
  const ACC_DOUBLE_TAP: uint8 := 0x40
  const ACC_WAKE_UP: uint8 := 0x80

  const VALUE_LEN_SMALL := 2 + 2
  const VALUE_LEN_LARGE := 2 + 3

  /** The six 6D orientation source bits the sensor reports. */
  datatype Orientation = Orientation(xl: uint8, xh: uint8, yl: uint8, yh: uint8, zl: uint8, zh: uint8)

  /** GetHWOrientation6D: a one-hot pattern gives its face, anything else ACC_NOT_USED. */
  function GetHWOrientation6D(o: Orientation): uint8
  {
    if o.xl == 0 && o.yl == 0 && o.zl == 0 && o.xh == 0 && o.yh == 1 && o.zh == 0 then ACC_6D_OR_RIGTH
    else if o.xl == 1 && o.yl == 0 && o.zl == 0 && o.xh == 0 && o.yh == 0 && o.zh == 0 then ACC_6D_OR_TOP
    else if o.xl == 0 && o.yl == 0 && o.zl == 0 && o.xh == 1 && o.yh == 0 && o.zh == 0 then ACC_6D_OR_BOTTOM
    else if o.xl == 0 && o.yl == 1 && o.zl == 0 && o.xh == 0 && o.yh == 0 && o.zh == 0 then ACC_6D_OR_LEFT
    else if o.xl == 0 && o.yl == 0 && o.zl == 0 && o.xh == 0 && o.yh == 0 && o.zh == 1 then ACC_6D_OR_UP
    else if o.xl == 0 && o.yl == 0 && o.zl == 1 && o.xh == 0 && o.yh == 0 && o.zh == 0 then ACC_6D_OR_DOWN
    else ACC_NOT_USED
  }

  /** The pattern with only the given one of the six bits set (0 = xl, 1 = xh, 2 = yl, 3 = yh, 4 = zl, 5 = zh). */
  function OneHot(k: nat): Orientation
    requires k < 6
  {
    Orientation(if k == 0 then 1 else 0, if k == 1 then 1 else 0, if k == 2 then 1 else 0,
                if k == 3 then 1 else 0, if k == 4 then 1 else 0, if k == 5 then 1 else 0)
  }

  /**
   * The six one-hot patterns get six distinct codes in 1..6, and every
   * other pattern gets ACC_NOT_USED.
   */
  lemma Orientation6DDecoding(o: Orientation, j: nat, k: nat)
    requires j < 6 && k < 6
    ensures 1 <= GetHWOrientation6D(OneHot(k)) <= 6
    ensures GetHWOrientation6D(OneHot(j)) == GetHWOrientation6D(OneHot(k)) ==> j == k
    ensures GetHWOrientation6D(o) != ACC_NOT_USED ==> exists i :: 0 <= i < 6 && o == OneHot(i)
  {
    var code := GetHWOrientation6D(o);
    if code == ACC_6D_OR_TOP { assert o == OneHot(0); }
    else if code == ACC_6D_OR_BOTTOM { assert o == OneHot(1); }
    else if code == ACC_6D_OR_LEFT { assert o == OneHot(2); }
    else if code == ACC_6D_OR_RIGTH { assert o == OneHot(3); }
    else if code == ACC_6D_OR_DOWN { assert o == OneHot(4); }
    else if code == ACC_6D_OR_UP { assert o == OneHot(5); }
  }

  /**
   * The AccEvent_Notify packet for `dimByte` 2 (tick/8, command) or 3
   * (tick/8, a zero byte, command), all little-endian; other sizes send nothing.
   */
  function AccEventPacket(tick: uint32, command: uint16, dimByte: uint8): Option<seq<uint8>>
  {
    if dimByte == 2 then Some(Le16(tick / 8) + Le16(command))
    else if dimByte == 3 then Some(Le16(tick / 8) + [0] + Le16(command))
    else None
  }

  /** Both layouts carry the timestamp first and give the command back. */
  lemma AccEventPacketFields(tick: uint32, command: uint16)
    ensures var v := AccEventPacket(tick, command, 2).value;
      |v| == VALUE_LEN_SMALL && LoadLe16(v[0..2]) == (tick / 8) % 0x1_0000 && LoadLe16(v[2..4]) == command
    ensures var v := AccEventPacket(tick, command, 3).value;
      |v| == VALUE_LEN_LARGE && LoadLe16(v[0..2]) == (tick / 8) % 0x1_0000 && v[2] == 0 && LoadLe16(v[3..5]) == command
  {
    Le16RoundTrip(tick / 8);
    Le16RoundTrip(command);
    var small := AccEventPacket(tick, command, 2).value;
    assert small[0..2] == Le16(tick / 8) && small[2..4] == Le16(command);
    var large := AccEventPacket(tick, command, 3).value;
    assert large[0..2] == Le16(tick / 8) && large[3..5] == Le16(command);
  }

  /** What AccEvent_Notify sends with the given notification status. */
  function AccEventUpdates(notificationStatus: uint8, tick: uint32, command: uint16, dimByte: uint8): seq<Update>
  {
    var p := AccEventPacket(tick, command, dimByte);
    if notificationStatus != 0 && p.Some? then [Update(ACC_EVENT_CHAR, p.value)] else []
  }

  // ---------------------------------------------------------------------
  // Interrupt handling

  /** The sensor's event status register, as IKS01A3_MOTION_SENSOR_Get_Event_Status reports it. */
  datatype EventStatus = EventStatus(stepStatus: uint8, freeFallStatus: uint8, tapStatus: uint8,
                                     doubleTapStatus: uint8, tiltStatus: uint8, d6dOrientationStatus: uint8,
                                     wakeUpStatus: uint8)

  /** One notification MOTION_EXT_Handle_IT can send. */
  datatype AccReport =
    | Steps(count: uint16)        // pedometer step count, 2 bytes
    | Event(code: uint8)          // free fall, taps, tilt, 6D face or wake-up, 2 bytes
    | MultiSteps(count: uint16)   // trailing step count in multi-event mode, 3 bytes

  function ReportCommand(r: AccReport): uint16
  {
    match r
    case Steps(c) => c
    case Event(code) => code
    case MultiSteps(c) => c
  }

  function ReportDim(r: AccReport): uint8
  {
    if r.MultiSteps? then 3 else 2
  }

  /** The updates a run of reports produces. */
  function ReportUpdates(notificationStatus: uint8, tick: uint32, rs: seq<AccReport>): seq<Update>
  {
    if |rs| == 0 then []
    else AccEventUpdates(notificationStatus, tick, ReportCommand(rs[0]), ReportDim(rs[0]))
         + ReportUpdates(notificationStatus, tick, rs[1..])
  }

  lemma {:induction false} ReportUpdatesAppend(ns: uint8, tick: uint32, rs: seq<AccReport>, r: AccReport)
    ensures ReportUpdates(ns, tick, rs + [r])
         == ReportUpdates(ns, tick, rs) + AccEventUpdates(ns, tick, ReportCommand(r), ReportDim(r))
    decreases |rs|
  {
    if |rs| == 0 {
      assert rs + [r] == [r];
    } else {
      assert (rs + [r])[1..] == rs[1..] + [r];
      ReportUpdatesAppend(ns, tick, rs[1..], r);
    }
  }

  /** With notifications off, nothing is sent whatever is reported. */
  lemma {:induction false} ReportUpdatesSilent(tick: uint32, rs: seq<AccReport>)
    ensures ReportUpdates(0, tick, rs) == []
    decreases |rs|
  {
    if |rs| > 0 {
      ReportUpdatesSilent(tick, rs[1..]);
    }
  }

  /** The event gate of Handle_IT: the feature's own bit or multi-event mode. */
  predicate Gate(status: bv32, f: Feature)
  {
    Check(status, f) || Check(status, MULTIPLE_EVENTS)
  }

  /** Which of its eight notifications one interrupt sends. */
  datatype Fired = Fired(steps: bool, freeFall: bool, singleTap: bool, doubleTap: bool, tilt: bool,
                         orientation: bool, wakeUp: bool, multiSteps: bool)

  /**
   * The gating of Handle_IT. The step count is reported on its own only
   * under the pedometer bit; wake-up only under its own bit; every other
   * event under its own bit or multi-event mode; the trailing step count
   * exactly in multi-event mode.
   */
  function Fires(status: bv32, ev: EventStatus): Fired
  {
    Fired(Check(status, PEDOMETER) && ev.stepStatus != 0,
          Gate(status, FREE_FALL) && ev.freeFallStatus != 0,
          Gate(status, SINGLE_TAP) && ev.tapStatus != 0,
          Gate(status, DOUBLE_TAP) && ev.doubleTapStatus != 0,
          Gate(status, TILT) && ev.tiltStatus != 0,
          Gate(status, ORIENTATION_6D) && ev.d6dOrientationStatus != 0,
          Check(status, WAKE_UP) && ev.wakeUpStatus != 0,
          Check(status, MULTIPLE_EVENTS))
  }

  /** The eight notifications Handle_IT can send, in its order, each with whether it fires. */
  function Candidates(fd: Fired, steps: uint16, o: Orientation): seq<(bool, AccReport)>
  {
    [(fd.steps, Steps(steps)), (fd.freeFall, Event(ACC_FREE_FALL)), (fd.singleTap, Event(ACC_SINGLE_TAP)),
     (fd.doubleTap, Event(ACC_DOUBLE_TAP)), (fd.tilt, Event(ACC_TILT)),
     (fd.orientation, Event(GetHWOrientation6D(o))), (fd.wakeUp, Event(ACC_WAKE_UP)),
     (fd.multiSteps, MultiSteps(steps))]
  }

  /** The candidates that fire, in order. */
  function Sift(cs: seq<(bool, AccReport)>): seq<AccReport>
    decreases |cs|
  {
    if |cs| == 0 then []
    else Sift(cs[..|cs| - 1]) + (if cs[|cs| - 1].0 then [cs[|cs| - 1].1] else [])
  }

  lemma SiftAppend(cs: seq<(bool, AccReport)>, b: bool, r: AccReport)
    ensures Sift(cs + [(b, r)]) == Sift(cs) + if b then [r] else []
  {
    assert (cs + [(b, r)])[..|cs|] == cs;
  }

  lemma {:induction false} SiftMembers(cs: seq<(bool, AccReport)>, r: AccReport)
    ensures r in Sift(cs) <==> exists i :: 0 <= i < |cs| && cs[i].0 && cs[i].1 == r
    decreases |cs|
  {
    if |cs| > 0 {
      var init := cs[..|cs| - 1];
      SiftMembers(init, r);
      if r in Sift(init) {
        var i :| 0 <= i < |init| && init[i].0 && init[i].1 == r;
        assert cs[i] == init[i];
      }
      if exists i :: 0 <= i < |cs| && cs[i].0 && cs[i].1 == r {
        var i :| 0 <= i < |cs| && cs[i].0 && cs[i].1 == r;
        if i < |cs| - 1 {
          assert init[i] == cs[i];
        }
      }
    }
  }

  /** The reports of one interrupt in the order Handle_IT sends them; `steps` is the step count after the interrupt. */
  function Reports(fd: Fired, steps: uint16, o: Orientation): seq<AccReport>
  {
    Sift(Candidates(fd, steps, o))
  }

  lemma AppendAssoc(a: seq<Update>, b: seq<Update>, c: seq<Update>)
    ensures (a + b) + c == a + (b + c)
  {
  }

  /** What one candidate contributes to the log. */
  function CandidateUpdates(ns: uint8, tick: uint32, c: (bool, AccReport)): seq<Update>
  {
    if c.0 then AccEventUpdates(ns, tick, ReportCommand(c.1), ReportDim(c.1)) else []
  }

  /** What a run of candidates contributes to the log, one after the other. */
  function CandidatesUpdates(ns: uint8, tick: uint32, cs: seq<(bool, AccReport)>): seq<Update>
    decreases |cs|
  {
    if |cs| == 0 then [] else CandidatesUpdates(ns, tick, cs[..|cs| - 1]) + CandidateUpdates(ns, tick, cs[|cs| - 1])
  }

  lemma SiftUpdatesAppend(ns: uint8, tick: uint32, cs: seq<(bool, AccReport)>, b: bool, r: AccReport)
    ensures ReportUpdates(ns, tick, Sift(cs + [(b, r)])) == ReportUpdates(ns, tick, Sift(cs)) + CandidateUpdates(ns, tick, (b, r))
  {
    SiftAppend(cs, b, r);
    if b {
      ReportUpdatesAppend(ns, tick, Sift(cs), r);
    } else {
      assert Sift(cs) + [] == Sift(cs);
    }
  }

  /** Sending the fired reports is sending each candidate that fires, in order. */
  lemma {:induction false} SiftUpdates(ns: uint8, tick: uint32, cs: seq<(bool, AccReport)>)
    ensures ReportUpdates(ns, tick, Sift(cs)) == CandidatesUpdates(ns, tick, cs)
    decreases |cs|
  {
    if |cs| > 0 {
      var init := cs[..|cs| - 1];
      SiftUpdates(ns, tick, init);
      assert cs == init + [(cs[|cs| - 1].0, cs[|cs| - 1].1)];
      SiftUpdatesAppend(ns, tick, init, cs[|cs| - 1].0, cs[|cs| - 1].1);
    }
  }

  lemma CandidatesUpdatesStep(ns: uint8, tick: uint32, cs: seq<(bool, AccReport)>, k: nat)
    requires k < |cs|
    ensures CandidatesUpdates(ns, tick, cs[..k + 1]) == CandidatesUpdates(ns, tick, cs[..k]) + CandidateUpdates(ns, tick, cs[k])
  {
    assert cs[..k + 1][..k] == cs[..k];
  }

  /** The log of eight candidates, written out. */
  lemma CandidatesUpdates8(ns: uint8, tick: uint32, cs: seq<(bool, AccReport)>)
    requires |cs| == 8
    ensures CandidatesUpdates(ns, tick, cs)
         == CandidateUpdates(ns, tick, cs[0]) + CandidateUpdates(ns, tick, cs[1]) + CandidateUpdates(ns, tick, cs[2])
            + CandidateUpdates(ns, tick, cs[3]) + CandidateUpdates(ns, tick, cs[4]) + CandidateUpdates(ns, tick, cs[5])
            + CandidateUpdates(ns, tick, cs[6]) + CandidateUpdates(ns, tick, cs[7])
  {
    assert cs[..0] == [];
    CandidatesUpdatesStep(ns, tick, cs, 0);
    assert [] + CandidateUpdates(ns, tick, cs[0]) == CandidateUpdates(ns, tick, cs[0]);
    CandidatesUpdatesStep(ns, tick, cs, 1);
    CandidatesUpdatesStep(ns, tick, cs, 2);
    CandidatesUpdatesStep(ns, tick, cs, 3);
    CandidatesUpdatesStep(ns, tick, cs, 4);
    CandidatesUpdatesStep(ns, tick, cs, 5);
    CandidatesUpdatesStep(ns, tick, cs, 6);
    CandidatesUpdatesStep(ns, tick, cs, 7);
    assert cs[..8] == cs;
  }

  /** The log of one interrupt, block by block as Handle_IT sends it. */
  function ItLog(ns: uint8, tick: uint32, fd: Fired, steps: uint16, o: Orientation): seq<Update>
  {
    CandidateUpdates(ns, tick, (fd.steps, Steps(steps)))
    + CandidateUpdates(ns, tick, (fd.freeFall, Event(ACC_FREE_FALL)))
    + CandidateUpdates(ns, tick, (fd.singleTap, Event(ACC_SINGLE_TAP)))
    + CandidateUpdates(ns, tick, (fd.doubleTap, Event(ACC_DOUBLE_TAP)))
    + CandidateUpdates(ns, tick, (fd.tilt, Event(ACC_TILT)))
    + CandidateUpdates(ns, tick, (fd.orientation, Event(GetHWOrientation6D(o))))
    + CandidateUpdates(ns, tick, (fd.wakeUp, Event(ACC_WAKE_UP)))
    + CandidateUpdates(ns, tick, (fd.multiSteps, MultiSteps(steps)))
  }

  /** Appending the blocks one by one to a log appends the whole interrupt log. */
  lemma LogAssoc(sent: seq<Update>, ns: uint8, tick: uint32, fd: Fired, steps: uint16, o: Orientation)
    ensures sent
          + CandidateUpdates(ns, tick, (fd.steps, Steps(steps)))
          + CandidateUpdates(ns, tick, (fd.freeFall, Event(ACC_FREE_FALL)))
          + CandidateUpdates(ns, tick, (fd.singleTap, Event(ACC_SINGLE_TAP)))
          + CandidateUpdates(ns, tick, (fd.doubleTap, Event(ACC_DOUBLE_TAP)))
          + CandidateUpdates(ns, tick, (fd.tilt, Event(ACC_TILT)))
          + CandidateUpdates(ns, tick, (fd.orientation, Event(GetHWOrientation6D(o))))
          + CandidateUpdates(ns, tick, (fd.wakeUp, Event(ACC_WAKE_UP)))
          + CandidateUpdates(ns, tick, (fd.multiSteps, MultiSteps(steps)))
         == sent + ItLog(ns, tick, fd, steps, o)
  {
    var log := CandidateUpdates(ns, tick, (fd.steps, Steps(steps)));
    AppendAssoc(sent, log, CandidateUpdates(ns, tick, (fd.freeFall, Event(ACC_FREE_FALL))));
    log := log + CandidateUpdates(ns, tick, (fd.freeFall, Event(ACC_FREE_FALL)));
    AppendAssoc(sent, log, CandidateUpdates(ns, tick, (fd.singleTap, Event(ACC_SINGLE_TAP))));
    log := log + CandidateUpdates(ns, tick, (fd.singleTap, Event(ACC_SINGLE_TAP)));
    AppendAssoc(sent, log, CandidateUpdates(ns, tick, (fd.doubleTap, Event(ACC_DOUBLE_TAP))));
    log := log + CandidateUpdates(ns, tick, (fd.doubleTap, Event(ACC_DOUBLE_TAP)));
    AppendAssoc(sent, log, CandidateUpdates(ns, tick, (fd.tilt, Event(ACC_TILT))));
    log := log + CandidateUpdates(ns, tick, (fd.tilt, Event(ACC_TILT)));
    AppendAssoc(sent, log, CandidateUpdates(ns, tick, (fd.orientation, Event(GetHWOrientation6D(o)))));
    log := log + CandidateUpdates(ns, tick, (fd.orientation, Event(GetHWOrientation6D(o))));
    AppendAssoc(sent, log, CandidateUpdates(ns, tick, (fd.wakeUp, Event(ACC_WAKE_UP))));
    log := log + CandidateUpdates(ns, tick, (fd.wakeUp, Event(ACC_WAKE_UP)));
    AppendAssoc(sent, log, CandidateUpdates(ns, tick, (fd.multiSteps, MultiSteps(steps))));
    log := log + CandidateUpdates(ns, tick, (fd.multiSteps, MultiSteps(steps)));
  }

  /** The block-by-block log is the log of the fired reports. */
  lemma ItLogIsReports(ns: uint8, tick: uint32, fd: Fired, steps: uint16, o: Orientation)
    ensures ItLog(ns, tick, fd, steps, o) == ReportUpdates(ns, tick, Reports(fd, steps, o))
  {
    var cs := Candidates(fd, steps, o);
    CandidatesUpdates8(ns, tick, cs);
    SiftUpdates(ns, tick, cs);
  }

  /** Every orientation code is below the codes of the other events. */
  lemma OrientationCodeRange(o: Orientation)
    ensures GetHWOrientation6D(o) <= ACC_6D_OR_DOWN
  {
  }

  /** Which candidate carries a given report. */
  lemma CandidateIndex(fd: Fired, steps: uint16, o: Orientation, i: int)
    requires 0 <= i < 8
    ensures var c := Candidates(fd, steps, o)[i].1;
      && (c == Event(ACC_FREE_FALL) <==> i == 1)
      && (c == Event(ACC_SINGLE_TAP) <==> i == 2)
      && (c == Event(ACC_DOUBLE_TAP) <==> i == 3)
      && (c == Event(ACC_TILT) <==> i == 4)
      && (c == Event(ACC_WAKE_UP) <==> i == 6)
      && (c == Steps(steps) <==> i == 0)
      && (c == MultiSteps(steps) <==> i == 7)
  {
    OrientationCodeRange(o);
  }

  /** A report carried by exactly one candidate is sent exactly when that candidate fires. */
  lemma SentIffFires(cs: seq<(bool, AccReport)>, r: AccReport, k: nat)
    requires k < |cs| && cs[k].1 == r
    requires forall i :: 0 <= i < |cs| && cs[i].1 == r ==> i == k
    ensures r in Sift(cs) <==> cs[k].0
  {
    SiftMembers(cs, r);
  }

  /**
   * An event is reported exactly when it fires (no orientation code is
   * mistaken for another event), and the trailing multi-event step count
   * comes last.
   */
  lemma ReportsContents(fd: Fired, steps: uint16, o: Orientation)
    ensures var rs := Reports(fd, steps, o);
      && (Event(ACC_FREE_FALL) in rs <==> fd.freeFall)
      && (Event(ACC_SINGLE_TAP) in rs <==> fd.singleTap)
      && (Event(ACC_DOUBLE_TAP) in rs <==> fd.doubleTap)
      && (Event(ACC_TILT) in rs <==> fd.tilt)
      && (Event(ACC_WAKE_UP) in rs <==> fd.wakeUp)
      && (Steps(steps) in rs <==> fd.steps)
      && (MultiSteps(steps) in rs <==> fd.multiSteps)
      && (fd.multiSteps ==> rs[|rs| - 1] == MultiSteps(steps))
  {
    var cs := Candidates(fd, steps, o);
    forall i | 0 <= i < 8 {
      CandidateIndex(fd, steps, o, i);
    }
    SentIffFires(cs, Steps(steps), 0);
    SentIffFires(cs, Event(ACC_FREE_FALL), 1);
    SentIffFires(cs, Event(ACC_SINGLE_TAP), 2);
    SentIffFires(cs, Event(ACC_DOUBLE_TAP), 3);
    SentIffFires(cs, Event(ACC_TILT), 4);
    SentIffFires(cs, Event(ACC_WAKE_UP), 6);
    SentIffFires(cs, MultiSteps(steps), 7);
    assert cs == cs[..7] + [(fd.multiSteps, MultiSteps(steps))];
    SiftAppend(cs[..7], fd.multiSteps, MultiSteps(steps));
  }

  /** Nothing is sent when no candidate fires. */
  lemma SiftNone(cs: seq<(bool, AccReport)>)
    requires forall i :: 0 <= i < |cs| ==> !cs[i].0
    ensures Sift(cs) == []
  {
    if Sift(cs) != [] {
      SiftMembers(cs, Sift(cs)[0]);
    }
  }

  /**
   * In multi-event mode every event that occurs is reported, except
   * wake-up, which needs its own bit; with no feature bit set, an interrupt
   * reports nothing.
   */
  lemma ItGating(status: bv32, ev: EventStatus, steps: uint16, o: Orientation)
    ensures Check(status, MULTIPLE_EVENTS) ==>
      var rs := Reports(Fires(status, ev), steps, o);
      && (ev.freeFallStatus != 0 <==> Event(ACC_FREE_FALL) in rs)
      && (ev.tapStatus != 0 <==> Event(ACC_SINGLE_TAP) in rs)
      && (ev.doubleTapStatus != 0 <==> Event(ACC_DOUBLE_TAP) in rs)
      && (ev.tiltStatus != 0 <==> Event(ACC_TILT) in rs)
      && (Event(ACC_WAKE_UP) in rs <==> Check(status, WAKE_UP) && ev.wakeUpStatus != 0)
      && rs[|rs| - 1] == MultiSteps(steps)
    ensures status & 0xFF == 0 ==> Reports(Fires(status, ev), steps, o) == []
  {
    ReportsContents(Fires(status, ev), steps, o);
    if status & 0xFF == 0 {
      forall f: Feature ensures !Check(status, f) {
        NoBitOutsideByte(status, f);
      }
      SiftNone(Candidates(Fires(status, ev), steps, o));
    }
  }

  // ---------------------------------------------------------------------
  // Switching one feature on or off

  /** The service's state: the context fields and the hardware bitmask. */
  datatype ExtState = ExtState(notificationStatus: uint8, multiEventEnabled: uint8,
                               pedometerStepCount: uint16, features: bv32)

  /** The state after DisableExtFeatures. */
  function DisableAll(s: ExtState, drv: Driver): ExtState
  {
    s.(features := AfterDisableAll(s.features, drv), multiEventEnabled := 0)
  }

  /** The state after Enable_MultiEvent. */
  function MultiOn(s: ExtState, drv: Driver): ExtState
  {
    s.(features := On(AfterEnableAll(AfterDisableAll(s.features, drv), drv), MULTIPLE_EVENTS),
       multiEventEnabled := 1, pedometerStepCount := 0)
  }

  /** The state after Disable_MultiEvent. */
  function MultiOff(s: ExtState, drv: Driver): ExtState
  {
    s.(features := Off(AfterDisableAll(s.features, drv), MULTIPLE_EVENTS), multiEventEnabled := 0)
  }

  /** The state after MOTION_EXT_Enable_Feature(code). */
  function EnableFeatureEffect(s: ExtState, code: uint8, drv: Driver): ExtState
  {
    var s1 := if s.multiEventEnabled == 1 then DisableAll(s, drv) else s;
    match FeatureOfCode(code)
    case None => s1
    case Some(MULTIPLE_EVENTS) => MultiOn(s1, drv)
    case Some(f) => s1.(features := EnableIfOk(s1.features, f, drv))
  }

  /** What MOTION_EXT_Enable_Feature(code) sends: the reset step count, when multi-event mode starts. */
  function EnableFeatureSent(s: ExtState, code: uint8, tick: uint32): seq<Update>
  {
    if FeatureOfCode(code) == Some(MULTIPLE_EVENTS) then AccEventUpdates(s.notificationStatus, tick, 0, 3) else []
  }

  /** The state after MOTION_EXT_Disable_Feature(code). */
  function DisableFeatureEffect(s: ExtState, code: uint8, drv: Driver): ExtState
  {
    match FeatureOfCode(code)
    case None => s
    case Some(MULTIPLE_EVENTS) => MultiOff(s, drv)
    case Some(f) => s.(features := if f in drv.disableOk then Off(s.features, f) else s.features)
  }

  /**
   * Enabling a single event: its bit is set exactly when it was already on
   * (and survived leaving multi-event mode) or the sensor enables it; every
   * other single event keeps its bit unless multi-event mode was left; and
   * the MULTIPLE_EVENTS bit is never cleared, so after leaving multi-event
   * mode the interrupt handler still gates events as in that mode.
   */
  lemma EnableSingleOutcome(s: ExtState, f: Feature, g: Feature, drv: Driver)
    requires f != MULTIPLE_EVENTS
    ensures var t := EnableFeatureEffect(s, Bit(f) as uint8, drv);
      && t.multiEventEnabled == (if s.multiEventEnabled == 1 then 0 else s.multiEventEnabled)
      && t.notificationStatus == s.notificationStatus && t.pedometerStepCount == s.pedometerStepCount
      && (Check(t.features, f) <==>
            (f in drv.enableOk || (Check(s.features, f) && (s.multiEventEnabled != 1 || f !in drv.disableOk))))
      && (g != f && s.multiEventEnabled != 1 ==> Check(t.features, g) == Check(s.features, g))
      && Check(t.features, MULTIPLE_EVENTS) == Check(s.features, MULTIPLE_EVENTS)
  {
    var s1 := if s.multiEventEnabled == 1 then DisableAll(s, drv) else s;
    EnableSingleState(s, f, drv);
    var t := s1.(features := EnableIfOk(s1.features, f, drv));
    DisableAllEffect(s.features, drv, f);
    DisableAllEffect(s.features, drv, MULTIPLE_EVENTS);
    EnableStep(s1.features, f, f, drv);
    EnableStep(s1.features, f, g, drv);
    EnableStep(s1.features, f, MULTIPLE_EVENTS, drv);
  }

  /** Enabling a single event leaves multi-event mode, if on, and then enables that event alone. */
  lemma EnableSingleState(s: ExtState, f: Feature, drv: Driver)
    requires f != MULTIPLE_EVENTS
    ensures var s1 := if s.multiEventEnabled == 1 then DisableAll(s, drv) else s;
      EnableFeatureEffect(s, Bit(f) as uint8, drv) == s1.(features := EnableIfOk(s1.features, f, drv))
  {
    FeatureCodes(f, Bit(f) as uint8);
  }

  /**
   * Enabling multi-event mode: the MULTIPLE_EVENTS bit is set, the step count
   * is reset, wake-up survives only if the sensor would not disable it, and
   * every other single event is on exactly when the sensor enables it or it
   * was on and the sensor refuses to disable it.
   */
  lemma EnableMultiOutcome(s: ExtState, g: Feature, drv: Driver)
    ensures var t := EnableFeatureEffect(s, Bit(MULTIPLE_EVENTS) as uint8, drv);
      && t.multiEventEnabled == 1 && t.pedometerStepCount == 0
      && t.notificationStatus == s.notificationStatus
      && Check(t.features, MULTIPLE_EVENTS)
      && (g != MULTIPLE_EVENTS ==>
            (Check(t.features, g) <==> (g != WAKE_UP && g in drv.enableOk) || (Check(s.features, g) && g !in drv.disableOk)))
  {
    var s1 := if s.multiEventEnabled == 1 then DisableAll(s, drv) else s;
    EnableMultiState(s, drv);
    MultiOnBits(s1.features, drv, g);
    MultiOnBits(s1.features, drv, MULTIPLE_EVENTS);
    if s.multiEventEnabled == 1 {
      DisableAllEffect(s.features, drv, g);
    }
  }

  /** Enabling MULTIPLE_EVENTS leaves multi-event mode, if on, and then enters it afresh. */
  lemma EnableMultiState(s: ExtState, drv: Driver)
    ensures var s1 := if s.multiEventEnabled == 1 then DisableAll(s, drv) else s;
      EnableFeatureEffect(s, Bit(MULTIPLE_EVENTS) as uint8, drv) == MultiOn(s1, drv)
  {
    FeatureCodes(MULTIPLE_EVENTS, Bit(MULTIPLE_EVENTS) as uint8);
  }

  /** The bitmask Enable_MultiEvent leaves, bit by bit. */
  lemma MultiOnBits(status: bv32, drv: Driver, g: Feature)
    ensures Check(On(AfterEnableAll(AfterDisableAll(status, drv), drv), MULTIPLE_EVENTS), g)
         == if g == MULTIPLE_EVENTS then true
            else (g != WAKE_UP && g in drv.enableOk) || (Check(status, g) && g !in drv.disableOk)
  {
    var d := AfterDisableAll(status, drv);
    var e := AfterEnableAll(d, drv);
    DisableAllEffect(status, drv, g);
    EnableAllEffect(d, drv, g);
    OnBit(e, MULTIPLE_EVENTS, g);
  }

  /**
   * Disabling: a single event's bit is cleared exactly when the sensor
   * disables it, and no other bit moves; disabling MULTIPLE_EVENTS clears
   * its bit unconditionally and leaves multi-event mode.
   */
  lemma DisableOutcome(s: ExtState, f: Feature, g: Feature, drv: Driver)
    ensures var t := DisableFeatureEffect(s, Bit(f) as uint8, drv);
      && t.notificationStatus == s.notificationStatus && t.pedometerStepCount == s.pedometerStepCount
      && (f != MULTIPLE_EVENTS ==>
            && (Check(t.features, f) <==> Check(s.features, f) && f !in drv.disableOk)
            && (g != f ==> Check(t.features, g) == Check(s.features, g))
            && t.multiEventEnabled == s.multiEventEnabled)
      && (f == MULTIPLE_EVENTS ==>
            && !Check(t.features, MULTIPLE_EVENTS) && t.multiEventEnabled == 0
            && (g != f ==> (Check(t.features, g) <==> Check(s.features, g) && g !in drv.disableOk)))
  {
    if f == MULTIPLE_EVENTS {
      DisableMultiOutcome(s, g, drv);
    } else {
      DisableSingleOutcome(s, f, g, drv);
    }
  }

  lemma DisableSingleOutcome(s: ExtState, f: Feature, g: Feature, drv: Driver)
    requires f != MULTIPLE_EVENTS
    ensures var t := DisableFeatureEffect(s, Bit(f) as uint8, drv);
      && t.notificationStatus == s.notificationStatus && t.pedometerStepCount == s.pedometerStepCount
      && (Check(t.features, f) <==> Check(s.features, f) && f !in drv.disableOk)
      && (g != f ==> Check(t.features, g) == Check(s.features, g))
      && t.multiEventEnabled == s.multiEventEnabled
  {
    DisableState(s, f, drv);
    if f in drv.disableOk {
      OffBit(s.features, f, f);
      OffBit(s.features, f, g);
    }
  }

  lemma DisableMultiOutcome(s: ExtState, g: Feature, drv: Driver)
    ensures var t := DisableFeatureEffect(s, Bit(MULTIPLE_EVENTS) as uint8, drv);
      && t.notificationStatus == s.notificationStatus && t.pedometerStepCount == s.pedometerStepCount
      && !Check(t.features, MULTIPLE_EVENTS) && t.multiEventEnabled == 0
      && (g != MULTIPLE_EVENTS ==> (Check(t.features, g) <==> Check(s.features, g) && g !in drv.disableOk))
  {
    DisableState(s, MULTIPLE_EVENTS, drv);
    MultiOffBits(s.features, drv, g);
    MultiOffBits(s.features, drv, MULTIPLE_EVENTS);
  }

  /** Disabling MULTIPLE_EVENTS leaves multi-event mode; disabling a single event only asks the sensor. */
  lemma DisableState(s: ExtState, f: Feature, drv: Driver)
    ensures DisableFeatureEffect(s, Bit(f) as uint8, drv)
         == if f == MULTIPLE_EVENTS then MultiOff(s, drv)
            else s.(features := if f in drv.disableOk then Off(s.features, f) else s.features)
  {
    FeatureCodes(f, Bit(f) as uint8);
  }

  /** The bitmask Disable_MultiEvent leaves, bit by bit. */
  lemma MultiOffBits(status: bv32, drv: Driver, g: Feature)
    ensures Check(Off(AfterDisableAll(status, drv), MULTIPLE_EVENTS), g)
         == (g != MULTIPLE_EVENTS && Check(status, g) && g !in drv.disableOk)
  {
    var d := AfterDisableAll(status, drv);
    DisableAllEffect(status, drv, g);
    OffBit(d, MULTIPLE_EVENTS, g);
  }

  // ---------------------------------------------------------------------
  // The service context

  /** MOTION_EXT_Server_App_Context together with HWExtFeaturesStatus. */
  class MotionExtServer {
    var notificationStatus: uint8
    var multiEventEnabled: uint8
    var pedometerStepCount: uint16
    var hwExtFeaturesStatus: bv32

    /** The zero-initialised statics. */
    constructor ()
      ensures notificationStatus == 0 && multiEventEnabled == 0 && pedometerStepCount == 0
      ensures hwExtFeaturesStatus == 0
    {
      notificationStatus, multiEventEnabled, pedometerStepCount := 0, 0, 0;
      hwExtFeaturesStatus := 0;
    }

    /** The fields as one value. */
    function State(): ExtState
      reads this
    {
      ExtState(notificationStatus, multiEventEnabled, pedometerStepCount, hwExtFeaturesStatus)
    }

    /** Enable_X for a single-event feature: its bit is set only when the sensor enables it. */
    method EnableHw(f: Feature, drv: Driver)
      requires f != MULTIPLE_EVENTS
      modifies this
      ensures hwExtFeaturesStatus == if f in drv.enableOk then On(old(hwExtFeaturesStatus), f) else old(hwExtFeaturesStatus)
      ensures notificationStatus == old(notificationStatus) && multiEventEnabled == old(multiEventEnabled)
      ensures pedometerStepCount == old(pedometerStepCount)
    {
      if f in drv.enableOk {
        hwExtFeaturesStatus := On(hwExtFeaturesStatus, f);
      }
    }

    /** Disable_X for a single-event feature: its bit is cleared only when the sensor disables it. */
    method DisableHw(f: Feature, drv: Driver)
      requires f != MULTIPLE_EVENTS
      modifies this
      ensures hwExtFeaturesStatus == if f in drv.disableOk then Off(old(hwExtFeaturesStatus), f) else old(hwExtFeaturesStatus)
      ensures notificationStatus == old(notificationStatus) && multiEventEnabled == old(multiEventEnabled)
      ensures pedometerStepCount == old(pedometerStepCount)
    {
      if f in drv.disableOk {
        hwExtFeaturesStatus := Off(hwExtFeaturesStatus, f);
      }
    }

    /** One step of DisableExtFeatures: Disable_X is called only if the feature's bit is set. */
    method DisableIfEnabled(f: Feature, drv: Driver)
      requires f != MULTIPLE_EVENTS
      modifies this
      ensures hwExtFeaturesStatus == DisableIfSet(old(hwExtFeaturesStatus), f, drv)
      ensures notificationStatus == old(notificationStatus) && multiEventEnabled == old(multiEventEnabled)
      ensures pedometerStepCount == old(pedometerStepCount)
    {
      if Check(hwExtFeaturesStatus, f) {
        DisableHw(f, drv);
      }
    }

    /** DisableExtFeatures. */
    method DisableExtFeatures(drv: Driver)
      modifies this
      ensures hwExtFeaturesStatus == AfterDisableAll(old(hwExtFeaturesStatus), drv)
      ensures multiEventEnabled == 0
      ensures notificationStatus == old(notificationStatus) && pedometerStepCount == old(pedometerStepCount)
    {
      DisableIfEnabled(PEDOMETER, drv);
      DisableIfEnabled(FREE_FALL, drv);
      DisableIfEnabled(DOUBLE_TAP, drv);
      DisableIfEnabled(SINGLE_TAP, drv);
      DisableIfEnabled(WAKE_UP, drv);
      DisableIfEnabled(TILT, drv);
      DisableIfEnabled(ORIENTATION_6D, drv);
      multiEventEnabled := 0;
    }

    /** EnableExtFeatures, in the source's order. */
    method EnableExtFeatures(drv: Driver)
      modifies this
      ensures hwExtFeaturesStatus == AfterEnableAll(old(hwExtFeaturesStatus), drv)
      ensures multiEventEnabled == 1
      ensures notificationStatus == old(notificationStatus) && pedometerStepCount == old(pedometerStepCount)
    {
      EnableHw(PEDOMETER, drv);
      EnableHw(TILT, drv);
      EnableHw(FREE_FALL, drv);
      EnableHw(SINGLE_TAP, drv);
      EnableHw(DOUBLE_TAP, drv);
      EnableHw(ORIENTATION_6D, drv);
      multiEventEnabled := 1;
    }

    /** AccEvent_Notify. */
    method AccEventNotify(radio: Radio, tick: uint32, command: uint16, dimByte: uint8)
      modifies radio
      ensures radio.sent == old(radio.sent) + AccEventUpdates(notificationStatus, tick, command, dimByte)
    {
      var p := AccEventPacket(tick, command, dimByte);
      if notificationStatus != 0 && p.Some? {
        radio.UpdateChar(ACC_EVENT_CHAR, p.value);
      }
    }

    /**
     * Enable_MultiEvent: everything off, the six multi-event features on,
     * the step count reset and reported, then the MULTIPLE_EVENTS bit set.
     */
    method EnableMultiEvent(drv: Driver, radio: Radio, tick: uint32)
      modifies this, radio
      ensures hwExtFeaturesStatus == On(AfterEnableAll(AfterDisableAll(old(hwExtFeaturesStatus), drv), drv), MULTIPLE_EVENTS)
      ensures multiEventEnabled == 1 && pedometerStepCount == 0
      ensures notificationStatus == old(notificationStatus)
      ensures radio.sent == old(radio.sent) + AccEventUpdates(notificationStatus, tick, 0, 3)
    {
      DisableExtFeatures(drv);
      EnableExtFeatures(drv);
      pedometerStepCount := 0;
      AccEventNotify(radio, tick, pedometerStepCount, 3);
      hwExtFeaturesStatus := On(hwExtFeaturesStatus, MULTIPLE_EVENTS);
    }

    /** Disable_MultiEvent: everything off, and the MULTIPLE_EVENTS bit cleared unconditionally. */
    method DisableMultiEvent(drv: Driver)
      modifies this
      ensures hwExtFeaturesStatus == Off(AfterDisableAll(old(hwExtFeaturesStatus), drv), MULTIPLE_EVENTS)
      ensures multiEventEnabled == 0
      ensures notificationStatus == old(notificationStatus) && pedometerStepCount == old(pedometerStepCount)
    {
      DisableExtFeatures(drv);
      hwExtFeaturesStatus := Off(hwExtFeaturesStatus, MULTIPLE_EVENTS);
    }

    /**
     * MOTION_EXT_Enable_Feature: leaves multi-event mode first (without
     * clearing the MULTIPLE_EVENTS bit), then enables the named feature; an
     * unknown code enables nothing.
     */
    method EnableFeature(code: uint8, drv: Driver, radio: Radio, tick: uint32)
      modifies this, radio
      ensures State() == EnableFeatureEffect(old(State()), code, drv)
      ensures radio.sent == old(radio.sent) + EnableFeatureSent(old(State()), code, tick)
    {
      if multiEventEnabled == 1 {
        DisableExtFeatures(drv);
      }
      var f := FeatureOfCode(code);
      match f {
        case None =>
        case Some(MULTIPLE_EVENTS) =>
          EnableMultiEvent(drv, radio, tick);
        case Some(g) =>
          EnableHw(g, drv);
      }
    }

    /** MOTION_EXT_Disable_Feature: disables the named feature; an unknown code does nothing. */
    method DisableFeature(code: uint8, drv: Driver)
      modifies this
      ensures State() == DisableFeatureEffect(old(State()), code, drv)
    {
      var f := FeatureOfCode(code);
      match f {
        case None =>
        case Some(MULTIPLE_EVENTS) =>
          DisableMultiEvent(drv);
        case Some(g) =>
          DisableHw(g, drv);
      }
    }

    /**
     * MOTION_EXT_Set_Notification_Status: 1 starts multi-event mode and
     * confirms it on the configuration characteristic, 0 stops it, and any
     * other value is only stored.
     */
    method SetNotificationStatus(status: uint8, config: ConfigServer.ConfigContext, drv: Driver, radio: Radio, tick: uint32)
      modifies this, radio
      ensures notificationStatus == status
      ensures status == 1 ==>
        && hwExtFeaturesStatus == On(AfterEnableAll(AfterDisableAll(old(hwExtFeaturesStatus), drv), drv), MULTIPLE_EVENTS)
        && multiEventEnabled == 1 && pedometerStepCount == 0
        && radio.sent == old(radio.sent) + AccEventUpdates(1, tick, 0, 3)
                         + config.NotificationUpdates(tick, ConfigServer.FEATURE_MASK_ACC_EVENTS, 'm' as uint8, 1)
      ensures status == 0 ==>
        && hwExtFeaturesStatus == Off(AfterDisableAll(old(hwExtFeaturesStatus), drv), MULTIPLE_EVENTS)
        && multiEventEnabled == 0 && pedometerStepCount == old(pedometerStepCount)
        && radio.sent == old(radio.sent)
      ensures status > 1 ==>
        && hwExtFeaturesStatus == old(hwExtFeaturesStatus) && multiEventEnabled == old(multiEventEnabled)
        && pedometerStepCount == old(pedometerStepCount) && radio.sent == old(radio.sent)
    {
      notificationStatus := status;
      if status == 1 {
        EnableMultiEvent(drv, radio, tick);
        config.SendNotification(radio, tick, ConfigServer.FEATURE_MASK_ACC_EVENTS, 'm' as uint8, 1);
      } else if status == 0 {
        DisableMultiEvent(drv);
      }
    }

    /** MOTION_EXT_Context_Init (the output data rate it saves is not modelled). */
    method ContextInit(drv: Driver)
      modifies this
      ensures notificationStatus == 0 && multiEventEnabled == 0
      ensures hwExtFeaturesStatus == Off(AfterDisableAll(old(hwExtFeaturesStatus), drv), MULTIPLE_EVENTS)
      ensures pedometerStepCount == old(pedometerStepCount)
    {
      notificationStatus := 0;
      DisableMultiEvent(drv);
      multiEventEnabled := 0;
    }

    /** MOTION_EXT_ReadCB: reports the sensor's step count if the pedometer is on, else 0. */
    method ReadCB(stepReading: uint16, radio: Radio, tick: uint32)
      modifies radio
      ensures radio.sent == old(radio.sent)
        + AccEventUpdates(notificationStatus, tick, if Check(hwExtFeaturesStatus, PEDOMETER) then stepReading else 0, 2)
    {
      var stepCount: uint16 := 0;
      if Check(hwExtFeaturesStatus, PEDOMETER) {
        stepCount := stepReading;
      }
      AccEventNotify(radio, tick, stepCount, 2);
    }

    /** One `if (...) AccEvent_Notify(...)` block of Handle_IT; `ns` is the notification status. */
    method NotifyIf(ghost ns: uint8, fire: bool, r: AccReport, radio: Radio, tick: uint32)
      requires ns == notificationStatus
      modifies radio
      ensures radio.sent == old(radio.sent) + CandidateUpdates(ns, tick, (fire, r))
    {
      if fire {
        AccEventNotify(radio, tick, ReportCommand(r), ReportDim(r));
      }
    }

    /**
     * MOTION_EXT_Handle_IT. `ev` is None when the event status cannot be
     * read; `stepReading` and `o` are what the sensor reports for the step
     * count and the 6D orientation bits.
     */
    method HandleIT(ev: Option<EventStatus>, stepReading: uint16, o: Orientation, radio: Radio, tick: uint32)
      modifies this, radio
      ensures ev.None? ==> pedometerStepCount == old(pedometerStepCount) && radio.sent == old(radio.sent)
      ensures ev.Some? ==>
        && pedometerStepCount == (if Gate(hwExtFeaturesStatus, PEDOMETER) && ev.value.stepStatus != 0
                                  then stepReading else old(pedometerStepCount))
        && radio.sent == old(radio.sent)
             + ReportUpdates(notificationStatus, tick, Reports(Fires(hwExtFeaturesStatus, ev.value), pedometerStepCount, o))
      ensures hwExtFeaturesStatus == old(hwExtFeaturesStatus) && multiEventEnabled == old(multiEventEnabled)
      ensures notificationStatus == old(notificationStatus)
    {
      if ev.None? {
        return;
      }
      var status := ev.value;
      var hw := hwExtFeaturesStatus;
      var fd := Fires(hw, status);
      if (Check(hw, PEDOMETER) || Check(hw, MULTIPLE_EVENTS)) && status.stepStatus != 0 {
        pedometerStepCount := stepReading;
      }
      var steps := pedometerStepCount;
      NotifyReports(notificationStatus, fd, steps, o, radio, tick);
      assert ItLog(notificationStatus, tick, fd, steps, o) == ReportUpdates(notificationStatus, tick, Reports(fd, steps, o)) by {
        ItLogIsReports(notificationStatus, tick, fd, steps, o);
      }
    }

    /** The eight `if (...) AccEvent_Notify(...)` blocks of Handle_IT, in their order. */
    method NotifyReports(ghost ns: uint8, fd: Fired, steps: uint16, o: Orientation, radio: Radio, tick: uint32)
      requires ns == notificationStatus
      modifies radio
      ensures radio.sent == old(radio.sent) + ItLog(ns, tick, fd, steps, o)
    {
      ghost var sent0 := radio.sent;
      var orientation := GetHWOrientation6D(o);
      NotifyIf(ns, fd.steps, Steps(steps), radio, tick);
      NotifyIf(ns, fd.freeFall, Event(ACC_FREE_FALL), radio, tick);
      NotifyIf(ns, fd.singleTap, Event(ACC_SINGLE_TAP), radio, tick);
      NotifyIf(ns, fd.doubleTap, Event(ACC_DOUBLE_TAP), radio, tick);
      NotifyIf(ns, fd.tilt, Event(ACC_TILT), radio, tick);
      NotifyIf(ns, fd.orientation, Event(orientation), radio, tick);
      NotifyIf(ns, fd.wakeUp, Event(ACC_WAKE_UP), radio, tick);
      NotifyIf(ns, fd.multiSteps, MultiSteps(steps), radio, tick);
      LogAssoc(sent0, ns, tick, fd, steps, o);
    }
  }
}
