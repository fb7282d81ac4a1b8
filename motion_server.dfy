/**
 * The MOTENV1 motion service (motion_server_app.c): which motion sensors
 * the board has, the advertising flags for them, the last axis readings
 * kept in the service context, and the 20-byte notification packet of
 * accelerometer, gyroscope and magnetometer axes.
 *
 * The sensor drivers are inputs: `MotionCaps` is what each sensor instance
 * reports it can measure, and a `MotionReading` per instance is what its
 * GetAxes calls returned (None when a call did not return 0). The
 * magnetometer offset the sensor-fusion service keeps is a parameter.
 */
module MotionServer {
  import opened ByteCodec
  import opened StErrno
  import opened BleLink

  const ACC_BYTES := 2
  const GYRO_BYTES := 2
  const MAG_BYTES := 2
  const VALUE_LEN_MOTION := 2 + 3 * ACC_BYTES + 3 * GYRO_BYTES + 3 * MAG_BYTES

  /** Offsets of the three axis triples in the packet. */
  const ACC_OFFSET := 2
  const GYRO_OFFSET := 8
  const MAG_OFFSET := 14

  /** IKS01A3_MOTION_SENSOR_Axes_t: three signed 32-bit axes. */
  datatype Axes = Axes(x: int32, y: int32, z: int32)

  // ---------------------------------------------------------------------
  // Capabilities and the advertising bytes

  /** IKS01A3_MOTION_SENSOR_Capabilities_t: what one sensor instance measures. */
  datatype MotionCaps = MotionCaps(acc: bool, gyro: bool, magneto: bool)

  datatype Sensor = Accelerometer | Gyroscope | Magnetometer

  predicate Measures(c: MotionCaps, k: Sensor)
  {
    match k
    case Accelerometer => c.acc
    case Gyroscope => c.gyro
    case Magnetometer => c.magneto
  }

  /** Some instance reports the capability. */
  predicate AnyReports(caps: seq<MotionCaps>, k: Sensor)
  {
    exists i :: 0 <= i < |caps| && Measures(caps[i], k)
  }

  /** manuf_data[5] after MOTION_GetCaps: acc 0x80, gyro 0x40, mag 0x20 ORed in. */
  function MotionAdvByte5(b: bv8, hasAcc: uint8, hasGyro: uint8, hasMag: uint8): bv8
  {
    b | (if hasAcc != 0 then 0x80 else 0) | (if hasGyro != 0 then 0x40 else 0) | (if hasMag != 0 then 0x20 else 0)
  }

  /** manuf_data[6] after MOTION_GetCaps: the accelerometer-events flag 0x04 with an accelerometer. */
  function MotionAdvByte6(b: bv8, hasAcc: uint8): bv8
  {
    b | (if hasAcc != 0 then 0x04 else 0)
  }

  /**
   * The advertising bytes flag each sensor the board has, keep every flag
   * they had and touch no other bit.
   */
  lemma MotionAdvFlags(b5: bv8, b6: bv8, hasAcc: uint8, hasGyro: uint8, hasMag: uint8)
    ensures var r5 := MotionAdvByte5(b5, hasAcc, hasGyro, hasMag);
      var r6 := MotionAdvByte6(b6, hasAcc);
      && (r5 & 0x80 != 0 <==> b5 & 0x80 != 0 || hasAcc != 0)
      && (r5 & 0x40 != 0 <==> b5 & 0x40 != 0 || hasGyro != 0)
      && (r5 & 0x20 != 0 <==> b5 & 0x20 != 0 || hasMag != 0)
      && r5 & 0x1F == b5 & 0x1F
      && (r6 & 0x04 != 0 <==> b6 & 0x04 != 0 || hasAcc != 0)
      && r6 & 0xFB == b6 & 0xFB
  {
    var a: bv8 := if hasAcc != 0 then 0x80 else 0;
    var g: bv8 := if hasGyro != 0 then 0x40 else 0;
    var m: bv8 := if hasMag != 0 then 0x20 else 0;
    assert MotionAdvByte5(b5, hasAcc, hasGyro, hasMag) == b5 | a | g | m;
  }

  /** One more instance: its capability joins those of the instances before it. */
  lemma AnyReportsStep(caps: seq<MotionCaps>, i: nat, k: Sensor)
    requires i < |caps|
    ensures AnyReports(caps[..i + 1], k) <==> AnyReports(caps[..i], k) || Measures(caps[i], k)
  {
    var p := caps[..i + 1];
    if AnyReports(p, k) {
      var j :| 0 <= j < |p| && Measures(p[j], k);
      if j < i {
        assert caps[..i][j] == p[j];
      }
    }
    if AnyReports(caps[..i], k) {
      var j :| 0 <= j < i && Measures(caps[..i][j], k);
      assert p[j] == caps[..i][j];
    }
  }

  // ---------------------------------------------------------------------
  // Readings

  /** What one sensor instance's GetAxes calls returned; None when a call failed. */
  datatype MotionReading = MotionReading(acc: Option<Axes>, gyro: Option<Axes>, mag: Option<Axes>)

  /** The has* fields of the context. */
  datatype MotionFlags = MotionFlags(hasAcc: uint8, hasGyro: uint8, hasMag: uint8)

  /** The axis triples the context keeps. */
  datatype MotionValues = MotionValues(acc: Axes, gyro: Axes, mag: Axes)

  /** One pass of MOTION_Handle_Sensor's loop. */
  function ReadStep(fl: MotionFlags, v: MotionValues, r: MotionReading): MotionValues
  {
    var v1 := if fl.hasAcc == 1 && r.acc.Some? then v.(acc := r.acc.value) else v;
    var v2 := if fl.hasGyro == 1 && r.gyro.Some? then v1.(gyro := r.gyro.value) else v1;
    if fl.hasMag == 1 && r.mag.Some? then v2.(mag := r.mag.value) else v2
  }

  /** The triples after MOTION_Handle_Sensor has passed over every instance. */
  function ReadAll(fl: MotionFlags, v: MotionValues, rs: seq<MotionReading>): MotionValues
  {
    if rs == [] then v else ReadStep(fl, ReadAll(fl, v, rs[..|rs| - 1]), rs[|rs| - 1])
  }

  /** The last successful read of a sensor. */
  function LastRead(rs: seq<MotionReading>, k: Sensor): Option<Axes>
  {
    if rs == [] then None
    else
      var r := rs[|rs| - 1];
      var got := match k case Accelerometer => r.acc case Gyroscope => r.gyro case Magnetometer => r.mag;
      if got.Some? then got else LastRead(rs[..|rs| - 1], k)
  }

  /**
   * Each stored triple is the last one its sensor returned successfully,
   * and stays as it was when the sensor is absent or no read succeeded.
   */
  lemma {:induction false} LastReadWins(fl: MotionFlags, v: MotionValues, rs: seq<MotionReading>)
    ensures var w := ReadAll(fl, v, rs);
      && w.acc == (if fl.hasAcc == 1 && LastRead(rs, Accelerometer).Some? then LastRead(rs, Accelerometer).value else v.acc)
      && w.gyro == (if fl.hasGyro == 1 && LastRead(rs, Gyroscope).Some? then LastRead(rs, Gyroscope).value else v.gyro)
      && w.mag == (if fl.hasMag == 1 && LastRead(rs, Magnetometer).Some? then LastRead(rs, Magnetometer).value else v.mag)
  {
    if rs != [] {
      LastReadWins(fl, v, rs[..|rs| - 1]);
    }
  }

  /** C's `x / 100` on an int32_t: the quotient rounded toward zero. */
  function Div100(x: int32): int32
  {
    if x >= 0 then x / 100 else -((-(x as int)) / 100)
  }

  /**
   * Div100 is C99's division: x == 100 * q + r with the remainder r
   * smaller than 100 in size and of the sign of x, and q of the sign of x.
   */
  lemma Div100IsCDivision(x: int32)
    ensures var q := Div100(x);
      var r := x - 100 * q;
      && -100 < r < 100
      && (x >= 0 ==> 0 <= r && q >= 0)
      && (x < 0 ==> r <= 0 && q <= 0)
  {
    if x < 0 {
      var m := -(x as int);
      assert m == 100 * (m / 100) + m % 100;
    }
  }

  /** `angular_velocity.{x,y,z} /= 100`. */
  function ScaleGyro(a: Axes): Axes
  {
    Axes(Div100(a.x), Div100(a.y), Div100(a.z))
  }

  /** The context's triples after MOTION_Send_Notification_Task: read, then the gyro divided in place. */
  function AfterSend(fl: MotionFlags, v: MotionValues, rs: seq<MotionReading>): MotionValues
  {
    var w := ReadAll(fl, v, rs);
    if fl.hasGyro == 1 then w.(gyro := ScaleGyro(w.gyro)) else w
  }

  /**
   * With a gyroscope, a send after a successful read reports the last
   * reading divided by 100; a send after no successful read divides the
   * already divided value again.
   */
  lemma GyroScaling(fl: MotionFlags, v: MotionValues, rs: seq<MotionReading>)
    requires fl.hasGyro == 1
    ensures LastRead(rs, Gyroscope).Some? ==> AfterSend(fl, v, rs).gyro == ScaleGyro(LastRead(rs, Gyroscope).value)
    ensures LastRead(rs, Gyroscope).None? ==> AfterSend(fl, v, rs).gyro == ScaleGyro(v.gyro)
  {
    LastReadWins(fl, v, rs);
  }

  /** The gyroscope triple after k sends with no new reading in between: divided again by each send. */
  function StaleAfter(g: Axes, k: nat): Axes
  {
    if k == 0 then g else ScaleGyro(StaleAfter(g, k - 1))
  }

  function Abs(x: int): nat { if x < 0 then -x else x }

  function Pow100(k: nat): (p: nat)
    ensures p >= 1
  {
    if k == 0 then 1 else 100 * Pow100(k - 1)
  }

  /** Dividing by p and then by 100 is dividing by 100p. */
  lemma DivDiv100(n: nat, p: nat)
    requires p >= 1
    ensures (n / p) / 100 == n / (p * 100)
  {
    var q, r := n / p, n % p;
    var q2, r2 := q / 100, q % 100;
    MulAdd(p, 100 * q2, r2);
    MulAssoc(p, 100, q2);
    MulMono(r2, 99, p);
    var m := p * r2 + r;
    assert n == (p * 100) * q2 + m;
    assert p * r2 + r < p * 99 + p;
    DivUnique(n, p * 100, q2, m);
  }

  lemma MulAdd(p: nat, a: nat, b: nat)
    ensures p * (a + b) == p * a + p * b
  {
  }

  lemma MulAssoc(p: nat, a: nat, b: nat)
    ensures p * (a * b) == (p * a) * b
  {
  }

  lemma MulMono(a: nat, b: nat, p: nat)
    requires a <= b
    ensures p * a <= p * b
  {
    MulAdd(p, a, b - a);
  }

  /** A quotient and remainder that add back up are the ones `/` gives. */
  lemma DivUnique(n: nat, d: nat, q: nat, m: nat)
    requires d >= 1 && m < d && n == d * q + m
    ensures n / d == q
  {
    var q0, m0 := n / d, n % d;
    if q0 < q {
      MulMono(q0 + 1, q, d);
      MulAdd(d, q0, 1);
    } else if q < q0 {
      MulMono(q + 1, q0, d);
      MulAdd(d, q, 1);
    }
  }

  /** A stale axis after k sends: its size is |x| / 100^k, rounded down, and its sign is kept. */
  lemma {:induction false} StaleAxis(x: int32, k: nat)
    ensures var s := StaleAfter(Axes(x, x, x), k).x;
      && Abs(s) == Abs(x) / Pow100(k)
      && (s > 0 ==> x > 0) && (s < 0 ==> x < 0)
  {
    if k > 0 {
      StaleAxis(x, k - 1);
      var s := StaleAfter(Axes(x, x, x), k - 1).x;
      assert StaleAfter(Axes(x, x, x), k).x == Div100(s);
      assert Abs(Div100(s)) == Abs(s) / 100;
      DivDiv100(Abs(x), Pow100(k - 1));
    }
  }

  /** Each axis of a stale triple evolves on its own. */
  lemma {:induction false} StaleAxesApart(g: Axes, k: nat)
    ensures StaleAfter(g, k)
      == Axes(StaleAfter(Axes(g.x, g.x, g.x), k).x, StaleAfter(Axes(g.y, g.y, g.y), k).x, StaleAfter(Axes(g.z, g.z, g.z), k).x)
  {
    if k > 0 {
      StaleAxesApart(g, k - 1);
    }
  }

  /**
   * A gyroscope value that is not read again shrinks by a factor of 100 at
   * each send, keeping its sign; every int32 value is 0 after five sends.
   */
  lemma StaleGyroDecays(g: Axes, k: nat)
    ensures var s := StaleAfter(g, k);
      && Abs(s.x) == Abs(g.x) / Pow100(k) && (s.x > 0 ==> g.x > 0) && (s.x < 0 ==> g.x < 0)
      && Abs(s.y) == Abs(g.y) / Pow100(k) && (s.y > 0 ==> g.y > 0) && (s.y < 0 ==> g.y < 0)
      && Abs(s.z) == Abs(g.z) / Pow100(k) && (s.z > 0 ==> g.z > 0) && (s.z < 0 ==> g.z < 0)
    ensures k >= 5 ==> StaleAfter(g, k) == Axes(0, 0, 0)
  {
    StaleAxesApart(g, k);
    StaleAxis(g.x, k);
    StaleAxis(g.y, k);
    StaleAxis(g.z, k);
    if k >= 5 {
      Pow100Grows(5, k);
      assert Pow100(5) == 10_000_000_000;
    }
  }

  lemma {:induction false} Pow100Grows(j: nat, k: nat)
    requires j <= k
    ensures Pow100(j) <= Pow100(k)
  {
    if j < k {
      Pow100Grows(j, k - 1);
    }
  }

  // ---------------------------------------------------------------------
  // The notification packet

  /** The magnetometer triple less the calibration offset, kept in an int32_t. */
  function MagField(mag: Axes, offset: Axes): Axes
  {
    Axes(Int32Of(mag.x - offset.x), Int32Of(mag.y - offset.y), Int32Of(mag.z - offset.z))
  }

  /** Three STORE_LE_16, one per axis: the low 16 bits of each. */
  function AxesBytes(a: Axes): (b: seq<uint8>)
    ensures |b| == 3 * 2
  {
    Le16(a.x) + Le16(a.y) + Le16(a.z)
  }

  /** The axes a client reads back from six packet bytes, as unsigned 16-bit patterns. */
  function LoadAxes(b: seq<uint8>): seq<uint16>
    requires |b| == 6
  {
    [LoadLe16(b[0..2]), LoadLe16(b[2..4]), LoadLe16(b[4..6])]
  }

  /** What a STORE_LE_16 of each axis leaves for the reader: each axis modulo 2^16. */
  function Axes16(a: Axes): seq<uint16>
  {
    [a.x % 0x1_0000, a.y % 0x1_0000, a.z % 0x1_0000]
  }

  lemma AxesBytesRoundTrip(a: Axes)
    ensures LoadAxes(AxesBytes(a)) == Axes16(a)
  {
    var b := AxesBytes(a);
    assert b[0..2] == Le16(a.x) && b[2..4] == Le16(a.y) && b[4..6] == Le16(a.z);
    Le16RoundTrip(a.x);
    Le16RoundTrip(a.y);
    Le16RoundTrip(a.z);
  }

  /** A triple the packet carries when its sensor is present, else the six stack bytes at its offset. */
  function Section(present: bool, bytes: seq<uint8>, stack: seq<uint8>, lo: nat): seq<uint8>
    requires |bytes| == 6 && lo + 6 <= |stack|
  {
    if present then bytes else stack[lo..lo + 6]
  }

  /**
   * The 20 bytes MOTION_Send_Notification_Task hands on: the tick / 8 and
   * the three triples at fixed offsets, each from the context when its
   * sensor is present and left as the uninitialised `value[]` held
   * (`stack`) otherwise.
   */
  function MotionPacket(tick: uint32, fl: MotionFlags, v: MotionValues, magOffset: Axes, stack: seq<uint8>): seq<uint8>
    requires |stack| == VALUE_LEN_MOTION
  {
    Le16(tick / 8)
    + Section(fl.hasAcc == 1, AxesBytes(v.acc), stack, ACC_OFFSET)
    + Section(fl.hasGyro == 1, AxesBytes(v.gyro), stack, GYRO_OFFSET)
    + Section(fl.hasMag == 1, AxesBytes(MagField(v.mag, magOffset)), stack, MAG_OFFSET)
  }

  /**
   * A client reads back from the 20 bytes the timestamp and, at offsets
   * 2, 8 and 14, the triple of each sensor present (the magnetometer less
   * its offset); the bytes of an absent sensor are left from the stack.
   */
  lemma MotionPacketFields(tick: uint32, fl: MotionFlags, v: MotionValues, magOffset: Axes, stack: seq<uint8>)
    requires |stack| == VALUE_LEN_MOTION
    ensures var pkt := MotionPacket(tick, fl, v, magOffset, stack);
      && |pkt| == VALUE_LEN_MOTION
      && LoadLe16(pkt[0..2]) == (tick / 8) % 0x1_0000
      && (if fl.hasAcc == 1 then LoadAxes(pkt[2..8]) == Axes16(v.acc) else pkt[2..8] == stack[2..8])
      && (if fl.hasGyro == 1 then LoadAxes(pkt[8..14]) == Axes16(v.gyro) else pkt[8..14] == stack[8..14])
      && (if fl.hasMag == 1 then LoadAxes(pkt[14..20]) == Axes16(MagField(v.mag, magOffset))
          else pkt[14..20] == stack[14..20])
  {
    var a := Le16(tick / 8);
    var s1 := Section(fl.hasAcc == 1, AxesBytes(v.acc), stack, ACC_OFFSET);
    var s2 := Section(fl.hasGyro == 1, AxesBytes(v.gyro), stack, GYRO_OFFSET);
    var s3 := Section(fl.hasMag == 1, AxesBytes(MagField(v.mag, magOffset)), stack, MAG_OFFSET);
    var pkt := a + s1 + s2 + s3;
    assert pkt[0..2] == a && pkt[2..8] == s1 && pkt[8..14] == s2 && pkt[14..20] == s3;
    Le16RoundTrip(tick / 8);
    AxesBytesRoundTrip(v.acc);
    AxesBytesRoundTrip(v.gyro);
    AxesBytesRoundTrip(MagField(v.mag, magOffset));
  }

  // ---------------------------------------------------------------------
  // The service context

  /** MOTION_Server_App_Context. */
  class MotionContext {
    var notificationStatus: uint8
    var acceleration: Axes
    var angularVelocity: Axes
    var magneticField: Axes
    var hasAcc: uint8
    var hasGyro: uint8
    var hasMag: uint8

    function Flags(): MotionFlags
      reads this
    {
      MotionFlags(hasAcc, hasGyro, hasMag)
    }

    function Values(): MotionValues
      reads this
    {
      MotionValues(acceleration, angularVelocity, magneticField)
    }

    /** The zero-initialised static context. */
    constructor ()
      ensures notificationStatus == 0 && Flags() == MotionFlags(0, 0, 0)
      ensures Values() == MotionValues(Axes(0, 0, 0), Axes(0, 0, 0), Axes(0, 0, 0))
    {
      notificationStatus := 0;
      acceleration, angularVelocity, magneticField := Axes(0, 0, 0), Axes(0, 0, 0), Axes(0, 0, 0);
      hasAcc, hasGyro, hasMag := 0, 0, 0;
    }

    /** MOTION_Set_Notification_Status. */
    method SetNotificationStatus(status: uint8)
      modifies this
      ensures notificationStatus == status && Flags() == old(Flags()) && Values() == old(Values())
    {
      notificationStatus := status;
    }

    /**
     * MOTION_GetCaps: each flag is raised by any instance that reports the
     * capability, then the advertising bytes get the flags ORed in.
     */
    method GetCaps(caps: seq<MotionCaps>, manufData: array<bv8>)
      requires manufData.Length == MANUF_DATA_LEN
      modifies this, manufData
      ensures notificationStatus == old(notificationStatus) && Values() == old(Values())
      ensures hasAcc == (if AnyReports(caps, Accelerometer) then 1 else old(hasAcc))
      ensures hasGyro == (if AnyReports(caps, Gyroscope) then 1 else old(hasGyro))
      ensures hasMag == (if AnyReports(caps, Magnetometer) then 1 else old(hasMag))
      ensures manufData[..] == old(manufData[..])[5 := MotionAdvByte5(old(manufData[5]), hasAcc, hasGyro, hasMag)]
                                                 [6 := MotionAdvByte6(old(manufData[6]), hasAcc)]
    {
      var i := 0;
      while i < |caps|
        invariant 0 <= i <= |caps|
        invariant hasAcc == (if AnyReports(caps[..i], Accelerometer) then 1 else old(hasAcc))
        invariant hasGyro == (if AnyReports(caps[..i], Gyroscope) then 1 else old(hasGyro))
        invariant hasMag == (if AnyReports(caps[..i], Magnetometer) then 1 else old(hasMag))
        invariant notificationStatus == old(notificationStatus) && Values() == old(Values())
        invariant manufData[..] == old(manufData[..])
      {
        AnyReportsStep(caps, i, Accelerometer);
        AnyReportsStep(caps, i, Gyroscope);
        AnyReportsStep(caps, i, Magnetometer);
        if caps[i].acc {
          hasAcc := 1;
        }
        if caps[i].gyro {
          hasGyro := 1;
        }
        if caps[i].magneto {
          hasMag := 1;
        }
        i := i + 1;
      }
      assert caps[..i] == caps;
      var b5, b6 := OrMotionFlags(manufData[5], manufData[6], hasAcc, hasGyro, hasMag);
      manufData[5] := b5;
      manufData[6] := b6;
    }

    /** The `|=` of MOTION_GetCaps, on copies of manuf_data[5] and manuf_data[6]. */
    static method OrMotionFlags(b5: bv8, b6: bv8, hasAcc: uint8, hasGyro: uint8, hasMag: uint8) returns (r5: bv8, r6: bv8)
      ensures r5 == MotionAdvByte5(b5, hasAcc, hasGyro, hasMag) && r6 == MotionAdvByte6(b6, hasAcc)
    {
      r5, r6 := b5, b6;
      if hasAcc != 0 {
        r5 := r5 | 0x80;
        r6 := r6 | 0x04;
      }
      if hasGyro != 0 {
        r5 := r5 | 0x40;
      }
      if hasMag != 0 {
        r5 := r5 | 0x20;
      }
    }

    /** MOTION_Context_Init: the flags and the notification status are cleared, then the capabilities probed. */
    method ContextInit(caps: seq<MotionCaps>, manufData: array<bv8>)
      requires manufData.Length == MANUF_DATA_LEN
      modifies this, manufData
      ensures notificationStatus == 0 && Values() == old(Values())
      ensures Flags() == MotionFlags(if AnyReports(caps, Accelerometer) then 1 else 0,
                                     if AnyReports(caps, Gyroscope) then 1 else 0,
                                     if AnyReports(caps, Magnetometer) then 1 else 0)
      ensures manufData[..] == old(manufData[..])[5 := MotionAdvByte5(old(manufData[5]), hasAcc, hasGyro, hasMag)]
                                                 [6 := MotionAdvByte6(old(manufData[6]), hasAcc)]
    {
      hasAcc := 0;
      hasGyro := 0;
      hasMag := 0;
      SetNotificationStatus(0);
      GetCaps(caps, manufData);
    }

    /** MOTION_Handle_Sensor: a triple is overwritten only by a successful read of a present sensor. */
    method HandleSensor(readings: seq<MotionReading>)
      modifies this
      ensures Flags() == old(Flags()) && notificationStatus == old(notificationStatus)
      ensures Values() == ReadAll(Flags(), old(Values()), readings)
    {
      var i := 0;
      while i < |readings|
        invariant 0 <= i <= |readings|
        invariant Flags() == old(Flags()) && notificationStatus == old(notificationStatus)
        invariant Values() == ReadAll(Flags(), old(Values()), readings[..i])
      {
        assert readings[..i + 1][..i] == readings[..i];
        var r := readings[i];
        if hasAcc == 1 && r.acc.Some? {
          acceleration := r.acc.value;
        }
        if hasGyro == 1 && r.gyro.Some? {
          angularVelocity := r.gyro.value;
        }
        if hasMag == 1 && r.mag.Some? {
          magneticField := r.mag.value;
        }
        i := i + 1;
      }
      assert readings[..i] == readings;
    }

    /**
     * MOTION_Send_Notification_Task: read the sensors, divide the gyroscope
     * triple by 100 in the context, pack the packet and, with notifications
     * on, send it. `stack` is what the uninitialised `value[]` holds.
     */
    method SendNotificationTask(readings: seq<MotionReading>, tick: uint32, magOffset: Axes, stack: seq<uint8>, radio: Radio)
      requires |stack| == VALUE_LEN_MOTION
      modifies this, radio
      ensures Flags() == old(Flags()) && notificationStatus == old(notificationStatus)
      ensures Values() == AfterSend(Flags(), old(Values()), readings)
      ensures radio.sent == old(radio.sent)
        + if notificationStatus != 0 then [Update(MOTION_CHAR, MotionPacket(tick, Flags(), Values(), magOffset, stack))] else []
    {
      HandleSensor(readings);
      if hasGyro == 1 {
        angularVelocity := ScaleGyro(angularVelocity);
      }
      var value := PackMotion(tick, Flags(), Values(), magOffset, stack);
      if notificationStatus != 0 {
        radio.UpdateChar(MOTION_CHAR, value[..]);
      }
    }

    /** The stores of MOTION_Send_Notification_Task into `value[]`, which starts as `stack`. */
    static method PackMotion(tick: uint32, fl: MotionFlags, v: MotionValues, magOffset: Axes, stack: seq<uint8>)
      returns (value: array<uint8>)
      requires |stack| == VALUE_LEN_MOTION
      ensures fresh(value) && value[..] == MotionPacket(tick, fl, v, magOffset, stack)
    {
      value := new uint8[VALUE_LEN_MOTION](i requires 0 <= i < VALUE_LEN_MOTION => stack[i]);
      assert value[..] == [] + stack[0..];
      Store(value, 0, Le16(tick / 8));
      assert value[..] == Le16(tick / 8) + stack[ACC_OFFSET..];
      StoreSection(value, fl.hasAcc == 1, AxesBytes(v.acc), Le16(tick / 8), stack, ACC_OFFSET);
      ghost var s1 := Section(fl.hasAcc == 1, AxesBytes(v.acc), stack, ACC_OFFSET);
      StoreSection(value, fl.hasGyro == 1, AxesBytes(v.gyro), Le16(tick / 8) + s1, stack, GYRO_OFFSET);
      ghost var s2 := Section(fl.hasGyro == 1, AxesBytes(v.gyro), stack, GYRO_OFFSET);
      StoreSection(value, fl.hasMag == 1, AxesBytes(MagField(v.mag, magOffset)), Le16(tick / 8) + s1 + s2, stack, MAG_OFFSET);
      assert stack[MAG_OFFSET + 6..] == [];
    }

    /** Three STORE_LE_16 at `lo` when the sensor is present; the bytes before and after stay. */
    static method StoreSection(value: array<uint8>, present: bool, bytes: seq<uint8>, ghost written: seq<uint8>,
                               ghost stack: seq<uint8>, lo: nat)
      requires |bytes| == 6 && lo == |written| && lo + 6 <= |stack| == value.Length
      requires value[..] == written + stack[lo..]
      modifies value
      ensures value[..] == written + Section(present, bytes, stack, lo) + stack[lo + 6..]
    {
      if present {
        Store(value, lo, bytes);
        assert old(value[..])[..lo] == written;
        assert old(value[..])[lo + 6..] == stack[lo + 6..];
      } else {
        assert stack[lo..] == stack[lo..lo + 6] + stack[lo + 6..];
      }
    }
  }
}
