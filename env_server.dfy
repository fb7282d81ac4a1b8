/**
 * The MOTENV1 environmental service (env_server_app.c): which sensors the
 * board has, the advertising flags for them, the readings kept in the
 * service context, and the 12-byte notification packet.
 *
 * The sensor drivers are inputs: `EnvCaps` is what each sensor instance
 * reports it can measure, and an `EnvReading` per instance is what a read
 * returned, already split into integer and decimal parts the way the
 * firmware's float-to-fixed conversion macros split the float (a failed
 * read is None). Under NFC_ENABLE the pressure comes from a text buffer
 * filled by the NFC reader instead; that parse is modelled byte for byte.
 */
module EnvServer {
  import opened ByteCodec
  import opened StErrno
  import opened BleLink
  import ConfigServer

  const PRESSURE_BYTES := 4
  const HUMIDITY_BYTES := 2
  const TEMPERATURE_BYTES := 2
  const VALUE_LEN_ENV := 2 + PRESSURE_BYTES + HUMIDITY_BYTES + TEMPERATURE_BYTES + TEMPERATURE_BYTES

  /** The two TemperatureValue slots of the context. */
  const TEMPERATURE_SLOTS := 2

  // ---------------------------------------------------------------------
  // Capabilities and the advertising byte

  /** IKS01A3_ENV_SENSOR_Capabilities_t: what one sensor instance measures. */
  datatype EnvCaps = EnvCaps(temperature: bool, humidity: bool, pressure: bool)

  predicate AnyPressure(caps: seq<EnvCaps>)
  {
    exists i :: 0 <= i < |caps| && caps[i].pressure
  }

  predicate AnyHumidity(caps: seq<EnvCaps>)
  {
    exists i :: 0 <= i < |caps| && caps[i].humidity
  }

  /** How many instances measure temperature. */
  function TemperatureCount(caps: seq<EnvCaps>): nat
  {
    if caps == [] then 0 else TemperatureCount(caps[..|caps| - 1]) + (if caps[|caps| - 1].temperature then 1 else 0)
  }

  function TemperatureFlags(hasTemperature: uint8): bv8
  {
    if hasTemperature > 1 then 0x05 else if hasTemperature == 1 then 0x04 else 0
  }

  function HumidityFlag(hasHumidity: uint8): bv8
  {
    if hasHumidity != 0 then 0x08 else 0
  }

  function PressureFlag(hasPressure: uint8): bv8
  {
    if hasPressure != 0 then 0x10 else 0
  }

  /** manuf_data[5] after EnvSensor_GetCaps ORs in the flags of the sensors found. */
  function EnvAdvByte(b: bv8, hasTemperature: uint8, hasHumidity: uint8, hasPressure: uint8): bv8
  {
    b | TemperatureFlags(hasTemperature) | HumidityFlag(hasHumidity) | PressureFlag(hasPressure)
  }

  /**
   * The advertising byte flags pressure (0x10), humidity (0x08), at least
   * one temperature (0x04) and two or more (0x01); it keeps every flag it
   * had and touches no other bit.
   */
  lemma EnvAdvFlags(b: bv8, hasTemperature: uint8, hasHumidity: uint8, hasPressure: uint8)
    ensures var r := EnvAdvByte(b, hasTemperature, hasHumidity, hasPressure);
      && (r & 0x10 != 0 <==> b & 0x10 != 0 || hasPressure != 0)
      && (r & 0x08 != 0 <==> b & 0x08 != 0 || hasHumidity != 0)
      && (r & 0x04 != 0 <==> b & 0x04 != 0 || hasTemperature >= 1)
      && (r & 0x01 != 0 <==> b & 0x01 != 0 || hasTemperature > 1)
      && r & 0xE2 == b & 0xE2
      && r & b == b
  {
  }

  /** One more instance: its capabilities join those of the instances before it. */
  lemma AnyStep(caps: seq<EnvCaps>, i: nat)
    requires i < |caps|
    ensures AnyPressure(caps[..i + 1]) <==> AnyPressure(caps[..i]) || caps[i].pressure
    ensures AnyHumidity(caps[..i + 1]) <==> AnyHumidity(caps[..i]) || caps[i].humidity
    ensures TemperatureCount(caps[..i + 1]) == TemperatureCount(caps[..i]) + (if caps[i].temperature then 1 else 0)
  {
    var p := caps[..i + 1];
    assert p[..i] == caps[..i] && p[i] == caps[i];
    if AnyPressure(p) {
      var j :| 0 <= j < |p| && p[j].pressure;
      if j < i { assert caps[..i][j] == p[j]; }
    }
    if AnyPressure(caps[..i]) {
      var j :| 0 <= j < i && caps[..i][j].pressure;
      assert p[j] == caps[..i][j];
    }
    if AnyHumidity(p) {
      var j :| 0 <= j < |p| && p[j].humidity;
      if j < i { assert caps[..i][j] == p[j]; }
    }
    if AnyHumidity(caps[..i]) {
      var j :| 0 <= j < i && caps[..i][j].humidity;
      assert p[j] == caps[..i][j];
    }
  }

  // ---------------------------------------------------------------------
  // Sensor readings

  /** A reading split into its integer and decimal parts (MCR_BLUEMS_F2I_1D/_2D, or atoi on the NFC text). */
  datatype Fixed = Fixed(intPart: int, decPart: int)

  /** intPart * scale + decPart, the fixed-point value the context stores. */
  function Scaled(f: Fixed, scale: int): int
  {
    f.intPart * scale + f.decPart
  }

  /** What one sensor instance returned for each quantity; None when the read failed. */
  datatype EnvReading = EnvReading(pressure: Option<Fixed>, humidity: Option<Fixed>, temperature: Option<Fixed>)

  /** The has* fields of the context. */
  datatype EnvFlags = EnvFlags(hasPressure: uint8, hasHumidity: uint8, hasTemperature: uint8)

  /** The stored values. */
  datatype EnvValues = EnvValues(pressure: int32, humidity: uint16, temps: seq<int16>)

  /**
   * The state ENV_Handle_Sensor carries from one instance to the next: the
   * stored values, the next temperature slot, and the locals intPart and
   * decPart, which keep their last value across iterations.
   */
  datatype SensorState = SensorState(values: EnvValues, tempIndex: nat, locals: Fixed)

  /**
   * The pressure step. `nfc` is None in a build without NFC_ENABLE; in an
   * NFC build it holds the parse of the NFC text, and when the parse finds
   * no decimal point the stale locals are stored.
   */
  function PressureStep(hasPressure: uint8, st: SensorState, r: EnvReading, nfc: Option<Option<Fixed>>): SensorState
  {
    if hasPressure != 1 then st
    else match nfc
      case Some(Some(f)) => st.(locals := f, values := st.values.(pressure := Int32Of(Scaled(f, 100))))
      case Some(None) => st.(values := st.values.(pressure := Int32Of(Scaled(st.locals, 100))))
      case None =>
        match r.pressure
        case Some(f) => st.(locals := f, values := st.values.(pressure := Int32Of(Scaled(f, 100))))
        case None => st
  }

  function HumidityStep(hasHumidity: uint8, st: SensorState, r: EnvReading): SensorState
  {
    if hasHumidity == 1 && r.humidity.Some? then
      st.(locals := r.humidity.value, values := st.values.(humidity := Scaled(r.humidity.value, 10) % 0x1_0000))
    else st
  }

  predicate TakesTemperature(hasTemperature: uint8, r: EnvReading)
  {
    hasTemperature >= 1 && r.temperature.Some?
  }

  function TemperatureStep(hasTemperature: uint8, st: SensorState, r: EnvReading): SensorState
    requires TakesTemperature(hasTemperature, r) ==> st.tempIndex < |st.values.temps|
  {
    if TakesTemperature(hasTemperature, r) then
      var f := r.temperature.value;
      st.(locals := f, tempIndex := st.tempIndex + 1,
          values := st.values.(temps := st.values.temps[st.tempIndex := Int16Of(Scaled(f, 10))]))
    else st
  }

  /** One pass of ENV_Handle_Sensor's loop: pressure, then humidity, then temperature. */
  function InstanceStep(fl: EnvFlags, st: SensorState, r: EnvReading, nfc: Option<Option<Fixed>>): SensorState
    requires TakesTemperature(fl.hasTemperature, r) ==> st.tempIndex < |st.values.temps|
  {
    TemperatureStep(fl.hasTemperature, HumidityStep(fl.hasHumidity, PressureStep(fl.hasPressure, st, r, nfc), r), r)
  }

  /** How many temperature slots the readings fill. */
  function TemperatureReads(hasTemperature: uint8, rs: seq<EnvReading>): nat
  {
    if rs == [] then 0
    else TemperatureReads(hasTemperature, rs[..|rs| - 1]) + (if TakesTemperature(hasTemperature, rs[|rs| - 1]) then 1 else 0)
  }

  /** The state after the loop has passed over the readings. */
  function SensorsAfter(fl: EnvFlags, st: SensorState, rs: seq<EnvReading>, nfc: Option<Option<Fixed>>): (r: SensorState)
    requires st.tempIndex + TemperatureReads(fl.hasTemperature, rs) <= |st.values.temps|
    ensures |r.values.temps| == |st.values.temps|
    ensures r.tempIndex == st.tempIndex + TemperatureReads(fl.hasTemperature, rs)
  {
    if rs == [] then st
    else InstanceStep(fl, SensorsAfter(fl, st, rs[..|rs| - 1], nfc), rs[|rs| - 1], nfc)
  }

  /** The values ENV_Handle_Sensor leaves, from the values before and the readings. */
  function HandledValues(fl: EnvFlags, v: EnvValues, rs: seq<EnvReading>, nfc: Option<Option<Fixed>>, locals0: Fixed): EnvValues
    requires TemperatureReads(fl.hasTemperature, rs) <= |v.temps|
  {
    SensorsAfter(fl, SensorState(v, 0, locals0), rs, nfc).values
  }

  /** The last successful pressure read. */
  function LastPressure(rs: seq<EnvReading>): Option<Fixed>
  {
    if rs == [] then None
    else if rs[|rs| - 1].pressure.Some? then rs[|rs| - 1].pressure
    else LastPressure(rs[..|rs| - 1])
  }

  /** The last successful humidity read. */
  function LastHumidity(rs: seq<EnvReading>): Option<Fixed>
  {
    if rs == [] then None
    else if rs[|rs| - 1].humidity.Some? then rs[|rs| - 1].humidity
    else LastHumidity(rs[..|rs| - 1])
  }

  /** The temperatures read, converted as the context stores them, in instance order. */
  function TemperaturesRead(hasTemperature: uint8, rs: seq<EnvReading>): (ts: seq<int16>)
    ensures |ts| == TemperatureReads(hasTemperature, rs)
  {
    if rs == [] then []
    else TemperaturesRead(hasTemperature, rs[..|rs| - 1])
         + (if TakesTemperature(hasTemperature, rs[|rs| - 1]) then [Int16Of(Scaled(rs[|rs| - 1].temperature.value, 10))] else [])
  }

  /**
   * Without NFC the stored pressure and humidity come from the last
   * instance whose read succeeded, and stay as they were if none did or
   * the sensor is absent.
   */
  lemma {:induction false} LastReadingWins(fl: EnvFlags, st: SensorState, rs: seq<EnvReading>)
    requires st.tempIndex + TemperatureReads(fl.hasTemperature, rs) <= |st.values.temps|
    ensures var v := SensorsAfter(fl, st, rs, None).values;
      && v.pressure == (if fl.hasPressure == 1 && LastPressure(rs).Some? then Int32Of(Scaled(LastPressure(rs).value, 100))
                        else st.values.pressure)
      && v.humidity == (if fl.hasHumidity == 1 && LastHumidity(rs).Some? then Scaled(LastHumidity(rs).value, 10) % 0x1_0000
                        else st.values.humidity)
  {
    if rs != [] {
      LastReadingWins(fl, st, rs[..|rs| - 1]);
    }
  }

  /** In an NFC build with a decimal point found, every pass stores the parsed pressure. */
  lemma NfcPressureStored(fl: EnvFlags, st: SensorState, rs: seq<EnvReading>, f: Fixed)
    requires st.tempIndex + TemperatureReads(fl.hasTemperature, rs) <= |st.values.temps|
    requires fl.hasPressure == 1 && rs != []
    ensures SensorsAfter(fl, st, rs, Some(Some(f))).values.pressure == Int32Of(Scaled(f, 100))
  {
  }

  /** A pass writes the current temperature slot when it reads a temperature, and no other slot. */
  lemma InstanceStepTemps(fl: EnvFlags, st: SensorState, r: EnvReading, nfc: Option<Option<Fixed>>)
    requires TakesTemperature(fl.hasTemperature, r) ==> st.tempIndex < |st.values.temps|
    ensures var s := InstanceStep(fl, st, r, nfc);
      if TakesTemperature(fl.hasTemperature, r) then
        && s.values.temps == st.values.temps[st.tempIndex := Int16Of(Scaled(r.temperature.value, 10))]
        && s.tempIndex == st.tempIndex + 1
      else s.values.temps == st.values.temps && s.tempIndex == st.tempIndex
  {
    var s1 := HumidityStep(fl.hasHumidity, PressureStep(fl.hasPressure, st, r, nfc), r);
    assert s1.values.temps == st.values.temps && s1.tempIndex == st.tempIndex;
  }

  /** Writing slot k, just after the slots already filled. */
  lemma PlaceNext(kept: seq<int16>, read: seq<int16>, temps: seq<int16>, k: nat, t: int16)
    requires |kept| + |read| == k < |temps|
    ensures (kept + read + temps[k..])[k := t] == kept + (read + [t]) + temps[k + 1..]
  {
    var lhs := (kept + read + temps[k..])[k := t];
    var rhs := kept + (read + [t]) + temps[k + 1..];
    assert |lhs| == |rhs|;
    forall i | 0 <= i < |lhs|
      ensures lhs[i] == rhs[i]
    {
      if i > k {
        assert temps[k..][i - k] == temps[k + 1..][i - k - 1];
      }
    }
  }

  /**
   * The temperatures read fill the slots from the current one on, in
   * instance order; the other slots keep their values.
   */
  lemma {:induction false} TemperaturesInOrder(fl: EnvFlags, st: SensorState, rs: seq<EnvReading>, nfc: Option<Option<Fixed>>)
    requires st.tempIndex + TemperatureReads(fl.hasTemperature, rs) <= |st.values.temps|
    ensures var n := st.tempIndex + TemperatureReads(fl.hasTemperature, rs);
      SensorsAfter(fl, st, rs, nfc).values.temps
        == st.values.temps[..st.tempIndex] + TemperaturesRead(fl.hasTemperature, rs) + st.values.temps[n..]
  {
    var temps := st.values.temps;
    if rs == [] {
      assert temps == temps[..st.tempIndex] + temps[st.tempIndex..];
    } else {
      var init := rs[..|rs| - 1];
      var r := rs[|rs| - 1];
      var ht := fl.hasTemperature;
      var mid := SensorsAfter(fl, st, init, nfc);
      var k := mid.tempIndex;
      var pre := temps[..st.tempIndex] + TemperaturesRead(ht, init);
      assert mid.values.temps == pre + temps[k..] by {
        TemperaturesInOrder(fl, st, init, nfc);
      }
      var after := SensorsAfter(fl, st, rs, nfc);
      assert after == InstanceStep(fl, mid, r, nfc);
      if TakesTemperature(ht, r) {
        var t := Int16Of(Scaled(r.temperature.value, 10));
        assert TemperaturesRead(ht, rs) == TemperaturesRead(ht, init) + [t];
        assert after.values.temps == (pre + temps[k..])[k := t] by {
          InstanceStepTemps(fl, mid, r, nfc);
        }
        PlaceNext(temps[..st.tempIndex], TemperaturesRead(ht, init), temps, k, t);
      } else {
        assert TemperaturesRead(ht, rs) == TemperaturesRead(ht, init);
        assert after.values.temps == mid.values.temps by {
          InstanceStepTemps(fl, mid, r, nfc);
        }
      }
    }
  }

  /** Reading a prefix of the instances fills no more slots than reading them all. */
  lemma {:induction false} TemperatureReadsPrefix(hasTemperature: uint8, rs: seq<EnvReading>, i: nat)
    requires i <= |rs|
    ensures TemperatureReads(hasTemperature, rs[..i]) <= TemperatureReads(hasTemperature, rs)
  {
    if i < |rs| {
      assert rs[..|rs| - 1][..i] == rs[..i];
      TemperatureReadsPrefix(hasTemperature, rs[..|rs| - 1], i);
    } else {
      assert rs[..i] == rs;
    }
  }

  // ---------------------------------------------------------------------
  // The NFC pressure text

  const NUL: uint8 := 0
  const DOT: uint8 := 0x2E
  const ZERO: uint8 := 0x30

  predicate IsDigit(c: uint8) { ZERO <= c <= ZERO + 9 }

  predicate IsSpace(c: uint8) { c == 0x20 || 0x09 <= c <= 0x0D }

  /** The number of leading white-space bytes atoi skips. */
  function SpaceRun(s: seq<uint8>): (n: nat)
    ensures n <= |s|
  {
    if |s| > 0 && IsSpace(s[0]) then 1 + SpaceRun(s[1..]) else 0
  }

  /** The decimal digits at the front of `s`, accumulated onto `acc`. */
  function Digits(s: seq<uint8>, acc: int): int
  {
    if |s| > 0 && IsDigit(s[0]) then Digits(s[1..], acc * 10 + (s[0] - ZERO) as int) else acc
  }

  /** atoi: white space, an optional sign, then digits up to the first non-digit (a NUL included). */
  function Atoi(s: seq<uint8>): int
  {
    var t := s[SpaceRun(s)..];
    if |t| > 0 && t[0] == 0x2D then -Digits(t[1..], 0)
    else if |t| > 0 && t[0] == 0x2B then Digits(t[1..], 0)
    else Digits(t, 0)
  }

  /** The bytes of string_buff ENV_Handle_Sensor reads and writes. */
  const NFC_BUFF_MIN := 15

  /**
   * The NFC parse as written: with the decimal point at index 11 a NUL goes
   * to index 13, with it at index 12 to index 14; the integer part is read
   * from index 8 and the decimals from just after the point. Without a
   * point nothing is parsed. The second component is the buffer afterwards.
   */
  function NfcPressure(buf: seq<uint8>): (Option<Fixed>, seq<uint8>)
    requires |buf| >= NFC_BUFF_MIN
  {
    if buf[11] == DOT then
      var b := buf[13 := NUL];
      (Some(Fixed(Atoi(b[8..]), Atoi(b[12..]))), b)
    else if buf[12] == DOT then
      var b := buf[14 := NUL];
      (Some(Fixed(Atoi(b[8..]), Atoi(b[13..]))), b)
    else (None, buf)
  }

  /** What the pressure step sees in a build with or without NFC_ENABLE. */
  function NfcInput(nfc: bool, buf: seq<uint8>): Option<Option<Fixed>>
    requires |buf| >= NFC_BUFF_MIN
  {
    if nfc then Some(NfcPressure(buf).0) else None
  }

  /** Parsing again the buffer a parse left behind gives the same result and the same buffer. */
  lemma NfcPressureIdempotent(buf: seq<uint8>)
    requires |buf| >= NFC_BUFF_MIN
    ensures NfcPressure(NfcPressure(buf).1) == NfcPressure(buf)
  {
    if buf[11] == DOT {
      assert buf[13 := NUL][13 := NUL] == buf[13 := NUL];
    } else if buf[12] == DOT {
      assert buf[14 := NUL][14 := NUL] == buf[14 := NUL];
    }
  }

  function DigitValue(c: uint8): int { (c - ZERO) as int }

  /** A pressure text with three integer digits at 8..10, the point at 11 and two decimals. */
  predicate Text3(buf: seq<uint8>)
  {
    |buf| >= 16 && IsDigit(buf[8]) && IsDigit(buf[9]) && IsDigit(buf[10]) && buf[11] == DOT
    && IsDigit(buf[12]) && IsDigit(buf[13])
  }

  /** A pressure text with four integer digits at 8..11, the point at 12 and two decimals. */
  predicate Text4(buf: seq<uint8>)
  {
    |buf| >= 16 && IsDigit(buf[8]) && IsDigit(buf[9]) && IsDigit(buf[10]) && IsDigit(buf[11]) && buf[12] == DOT
    && IsDigit(buf[13]) && IsDigit(buf[14])
  }

  /** The integer part the text spells. */
  function IntText(buf: seq<uint8>, digits: nat): int
    requires 8 + digits <= |buf| && digits <= 4
    decreases digits
  {
    if digits == 0 then 0 else 10 * IntText(buf, digits - 1) + DigitValue(buf[8 + digits - 1])
  }

  /** Digits followed by a non-digit read as their decimal value. */
  lemma Digits1(s: seq<uint8>, acc: int)
    requires |s| >= 2 && IsDigit(s[0]) && !IsDigit(s[1])
    ensures Digits(s, acc) == 10 * acc + DigitValue(s[0])
  {
    assert s[1..][0] == s[1];
  }

  lemma Digits2(s: seq<uint8>, acc: int)
    requires |s| >= 3 && IsDigit(s[0]) && IsDigit(s[1]) && !IsDigit(s[2])
    ensures Digits(s, acc) == 100 * acc + 10 * DigitValue(s[0]) + DigitValue(s[1])
  {
    Digits1(s[1..], 10 * acc + DigitValue(s[0]));
  }

  lemma Digits3(s: seq<uint8>, acc: int)
    requires |s| >= 4 && IsDigit(s[0]) && IsDigit(s[1]) && IsDigit(s[2]) && !IsDigit(s[3])
    ensures Digits(s, acc) == 1000 * acc + 100 * DigitValue(s[0]) + 10 * DigitValue(s[1]) + DigitValue(s[2])
  {
    Digits2(s[1..], 10 * acc + DigitValue(s[0]));
  }

  lemma Digits4(s: seq<uint8>)
    requires |s| >= 5 && IsDigit(s[0]) && IsDigit(s[1]) && IsDigit(s[2]) && IsDigit(s[3]) && !IsDigit(s[4])
    ensures Digits(s, 0) == 1000 * DigitValue(s[0]) + 100 * DigitValue(s[1]) + 10 * DigitValue(s[2]) + DigitValue(s[3])
  {
    Digits3(s[1..], DigitValue(s[0]));
  }

  /** atoi of a string starting with a digit is its leading digits. */
  lemma AtoiDigits(s: seq<uint8>)
    requires |s| > 0 && IsDigit(s[0])
    ensures Atoi(s) == Digits(s, 0)
  {
    assert SpaceRun(s) == 0;
    assert s[0..] == s;
  }

  /**
   * As written, the NUL after the point overwrites the second decimal: the
   * stored value is the integer part times 100 plus the first decimal
   * alone, not the text's value in hundredths.
   */
  lemma NfcPressureOneDecimal(buf: seq<uint8>)
    requires Text3(buf) || Text4(buf)
    ensures NfcPressure(buf).0.Some?
    ensures Text3(buf) ==> Scaled(NfcPressure(buf).0.value, 100) == 100 * IntText(buf, 3) + DigitValue(buf[12])
    ensures Text4(buf) ==> Scaled(NfcPressure(buf).0.value, 100) == 100 * IntText(buf, 4) + DigitValue(buf[13])
  {
    if Text3(buf) {
      var b := buf[13 := NUL];
      AtoiDigits(b[8..]);
      Digits3(b[8..], 0);
      AtoiDigits(b[12..]);
      Digits1(b[12..], 0);
    } else {
      var b := buf[14 := NUL];
      AtoiDigits(b[8..]);
      Digits4(b[8..]);
      AtoiDigits(b[13..]);
      Digits1(b[13..], 0);
    }
  }

  /** The text "Pressure990.25" gives 99002 where it spells 990.25, that is 99025 hundredths. */
  lemma NfcDropsSecondDecimal()
    ensures var buf: seq<uint8> := [0x50, 0x72, 0x65, 0x73, 0x73, 0x75, 0x72, 0x65, 0x39, 0x39, 0x30, DOT, 0x32, 0x35, NUL, NUL];
      && Text3(buf)
      && 100 * IntText(buf, 3) + 10 * DigitValue(buf[12]) + DigitValue(buf[13]) == 99025
      && Scaled(NfcPressure(buf).0.value, 100) == 99002
  {
    var buf: seq<uint8> := [0x50, 0x72, 0x65, 0x73, 0x73, 0x75, 0x72, 0x65, 0x39, 0x39, 0x30, DOT, 0x32, 0x35, NUL, NUL];
    NfcPressureOneDecimal(buf);
  }

  /** The parse the comments describe: the NUL goes after the second decimal. */
  function NfcPressureTwoDecimals(buf: seq<uint8>): (Option<Fixed>, seq<uint8>)
    requires |buf| >= NFC_BUFF_MIN + 1
  {
    if buf[11] == DOT then
      var b := buf[14 := NUL];
      (Some(Fixed(Atoi(b[8..]), Atoi(b[12..]))), b)
    else if buf[12] == DOT then
      var b := buf[15 := NUL];
      (Some(Fixed(Atoi(b[8..]), Atoi(b[13..]))), b)
    else (None, buf)
  }

  /** With the NUL after the second decimal the stored value is the text's pressure in hundredths. */
  lemma NfcPressureTwoDecimalsValue(buf: seq<uint8>)
    requires Text3(buf) || Text4(buf)
    ensures NfcPressureTwoDecimals(buf).0.Some?
    ensures Text3(buf) ==> Scaled(NfcPressureTwoDecimals(buf).0.value, 100)
                           == 100 * IntText(buf, 3) + 10 * DigitValue(buf[12]) + DigitValue(buf[13])
    ensures Text4(buf) ==> Scaled(NfcPressureTwoDecimals(buf).0.value, 100)
                           == 100 * IntText(buf, 4) + 10 * DigitValue(buf[13]) + DigitValue(buf[14])
  {
    if Text3(buf) {
      var b := buf[14 := NUL];
      AtoiDigits(b[8..]);
      Digits3(b[8..], 0);
      AtoiDigits(b[12..]);
      Digits2(b[12..], 0);
    } else {
      var b := buf[15 := NUL];
      AtoiDigits(b[8..]);
      Digits4(b[8..]);
      AtoiDigits(b[13..]);
      Digits2(b[13..], 0);
    }
  }

  // ---------------------------------------------------------------------
  // The notification packet

  /** STORE_LE_16 of each temperature, in slot order. */
  function TemperatureBytes(ts: seq<int16>): (b: seq<uint8>)
    ensures |b| == TEMPERATURE_BYTES * |ts|
  {
    if ts == [] then [] else TemperatureBytes(ts[..|ts| - 1]) + Le16(ts[|ts| - 1])
  }

  /** The pressure field, present when the board has a pressure sensor. */
  function PressureField(fl: EnvFlags, v: EnvValues): (b: seq<uint8>)
    ensures |b| == if fl.hasPressure == 1 then PRESSURE_BYTES else 0
  {
    if fl.hasPressure == 1 then Le32(v.pressure) else []
  }

  /** The humidity field, present when the board has a humidity sensor. */
  function HumidityField(fl: EnvFlags, v: EnvValues): (b: seq<uint8>)
    ensures |b| == if fl.hasHumidity == 1 then HUMIDITY_BYTES else 0
  {
    if fl.hasHumidity == 1 then Le16(v.humidity) else []
  }

  /** The fields before the temperatures. */
  function FixedFields(tick: uint32, fl: EnvFlags, v: EnvValues): (b: seq<uint8>)
    ensures |b| == 2 + |PressureField(fl, v)| + |HumidityField(fl, v)|
  {
    Le16(tick / 8) + PressureField(fl, v) + HumidityField(fl, v)
  }

  /**
   * The bytes ENV_Update writes: the tick / 8, then the pressure, the
   * humidity and the temperatures of the sensors the board has.
   */
  function EnvFields(tick: uint32, fl: EnvFlags, v: EnvValues): (b: seq<uint8>)
    requires fl.hasTemperature as int <= |v.temps|
    ensures |b| == 2 + (if fl.hasPressure == 1 then PRESSURE_BYTES else 0)
                     + (if fl.hasHumidity == 1 then HUMIDITY_BYTES else 0) + TEMPERATURE_BYTES * fl.hasTemperature as int
  {
    FixedFields(tick, fl, v) + TemperatureBytes(v.temps[..fl.hasTemperature])
  }

  /**
   * The packet: always VALUE_LEN_ENV bytes, the written fields first and
   * then whatever `value[]` held on the stack (`stack`).
   */
  function EnvPacket(tick: uint32, fl: EnvFlags, v: EnvValues, stack: seq<uint8>): seq<uint8>
    requires fl.hasTemperature as int <= TEMPERATURE_SLOTS && |v.temps| == TEMPERATURE_SLOTS && |stack| == VALUE_LEN_ENV
  {
    var f := EnvFields(tick, fl, v);
    f + stack[|f|..]
  }

  lemma {:induction false} TemperatureBytesAt(ts: seq<int16>, j: nat)
    requires j < |ts|
    ensures TemperatureBytes(ts)[2 * j .. 2 * j + 2] == Le16(ts[j])
  {
    if j < |ts| - 1 {
      TemperatureBytesAt(ts[..|ts| - 1], j);
    }
  }

  /** The bytes at offset |x| of x + y + z are those of y. */
  lemma SliceOfMiddle(x: seq<uint8>, y: seq<uint8>, z: seq<uint8>, i: nat, j: nat)
    requires i <= j <= |y|
    ensures (x + y + z)[|x| + i .. |x| + j] == y[i..j]
  {
    assert forall k :: |x| + i <= k < |x| + j ==> (x + y + z)[k] == y[k - |x|];
  }

  lemma PacketTick(tick: uint32, fl: EnvFlags, v: EnvValues, stack: seq<uint8>)
    requires fl.hasTemperature as int <= TEMPERATURE_SLOTS && |v.temps| == TEMPERATURE_SLOTS && |stack| == VALUE_LEN_ENV
    ensures LoadLe16(EnvPacket(tick, fl, v, stack)[0..2]) == (tick / 8) % 0x1_0000
  {
    var f := EnvFields(tick, fl, v);
    var a := Le16(tick / 8);
    var z := PressureField(fl, v) + HumidityField(fl, v) + TemperatureBytes(v.temps[..fl.hasTemperature]) + stack[|f|..];
    assert EnvPacket(tick, fl, v, stack) == [] + a + z;
    SliceOfMiddle([], a, z, 0, 2);
    Le16RoundTrip(tick / 8);
  }

  lemma PacketPressure(tick: uint32, fl: EnvFlags, v: EnvValues, stack: seq<uint8>)
    requires fl.hasTemperature as int <= TEMPERATURE_SLOTS && |v.temps| == TEMPERATURE_SLOTS && |stack| == VALUE_LEN_ENV
    requires fl.hasPressure == 1
    ensures AsInt32(LoadLe32(EnvPacket(tick, fl, v, stack)[2..6])) == v.pressure
  {
    var f := EnvFields(tick, fl, v);
    var a := Le16(tick / 8);
    var z := HumidityField(fl, v) + TemperatureBytes(v.temps[..fl.hasTemperature]) + stack[|f|..];
    assert EnvPacket(tick, fl, v, stack) == a + PressureField(fl, v) + z;
    SliceOfMiddle(a, PressureField(fl, v), z, 0, 4);
    Le32SignedRoundTrip(v.pressure);
  }

  lemma PacketHumidity(tick: uint32, fl: EnvFlags, v: EnvValues, stack: seq<uint8>)
    requires fl.hasTemperature as int <= TEMPERATURE_SLOTS && |v.temps| == TEMPERATURE_SLOTS && |stack| == VALUE_LEN_ENV
    requires fl.hasHumidity == 1
    ensures var h := 2 + |PressureField(fl, v)|;
      LoadLe16(EnvPacket(tick, fl, v, stack)[h..h + 2]) == v.humidity
  {
    var f := EnvFields(tick, fl, v);
    var a := Le16(tick / 8) + PressureField(fl, v);
    var z := TemperatureBytes(v.temps[..fl.hasTemperature]) + stack[|f|..];
    assert EnvPacket(tick, fl, v, stack) == a + HumidityField(fl, v) + z;
    SliceOfMiddle(a, HumidityField(fl, v), z, 0, 2);
    Le16RoundTrip(v.humidity);
  }

  lemma PacketTemperature(tick: uint32, fl: EnvFlags, v: EnvValues, stack: seq<uint8>, j: nat)
    requires fl.hasTemperature as int <= TEMPERATURE_SLOTS && |v.temps| == TEMPERATURE_SLOTS && |stack| == VALUE_LEN_ENV
    requires j < fl.hasTemperature as int
    ensures var t := 2 + |PressureField(fl, v)| + |HumidityField(fl, v)|;
      AsInt16(LoadLe16(EnvPacket(tick, fl, v, stack)[t + 2 * j .. t + 2 * j + 2])) == v.temps[j]
  {
    var f := EnvFields(tick, fl, v);
    var a := Le16(tick / 8) + PressureField(fl, v) + HumidityField(fl, v);
    var ts := v.temps[..fl.hasTemperature];
    assert EnvPacket(tick, fl, v, stack) == a + TemperatureBytes(ts) + stack[|f|..];
    TemperatureBytesAt(ts, j);
    SliceOfMiddle(a, TemperatureBytes(ts), stack[|f|..], 2 * j, 2 * j + 2);
    Le16SignedRoundTrip(v.temps[j]);
  }

  /**
   * A client reads back from the packet the timestamp and every value the
   * board measures, each at the offset the flags before it give; the rest
   * of the 12 bytes is left over from the stack.
   */
  lemma EnvPacketFields(tick: uint32, fl: EnvFlags, v: EnvValues, stack: seq<uint8>)
    requires fl.hasTemperature as int <= TEMPERATURE_SLOTS && |v.temps| == TEMPERATURE_SLOTS && |stack| == VALUE_LEN_ENV
    ensures var pkt := EnvPacket(tick, fl, v, stack);
      var h := 2 + (if fl.hasPressure == 1 then PRESSURE_BYTES else 0);
      var t := h + (if fl.hasHumidity == 1 then HUMIDITY_BYTES else 0);
      var end := t + TEMPERATURE_BYTES * fl.hasTemperature as int;
      && |pkt| == VALUE_LEN_ENV
      && LoadLe16(pkt[0..2]) == (tick / 8) % 0x1_0000
      && (fl.hasPressure == 1 ==> AsInt32(LoadLe32(pkt[2..6])) == v.pressure)
      && (fl.hasHumidity == 1 ==> LoadLe16(pkt[h..h + 2]) == v.humidity)
      && (forall j :: 0 <= j < fl.hasTemperature as int ==> AsInt16(LoadLe16(pkt[t + 2 * j .. t + 2 * j + 2])) == v.temps[j])
      && pkt[end..] == stack[end..]
  {
    PacketTick(tick, fl, v, stack);
    if fl.hasPressure == 1 {
      PacketPressure(tick, fl, v, stack);
    }
    if fl.hasHumidity == 1 {
      PacketHumidity(tick, fl, v, stack);
    }
    forall j | 0 <= j < fl.hasTemperature as int {
      PacketTemperature(tick, fl, v, stack, j);
    }
  }

  // ---------------------------------------------------------------------
  // The service context

  /** ENV_Server_App_Context. */
  class EnvContext {
    var notificationStatus: uint8
    var pressureValue: int32
    var humidityValue: uint16
    var temperatureValue: array<int16>
    var hasPressure: uint8
    var hasHumidity: uint8
    var hasTemperature: uint8

    predicate Valid()
      reads this
    {
      temperatureValue.Length == TEMPERATURE_SLOTS
    }

    function Flags(): EnvFlags
      reads this
    {
      EnvFlags(hasPressure, hasHumidity, hasTemperature)
    }

    function Values(): EnvValues
      reads this, temperatureValue
    {
      EnvValues(pressureValue, humidityValue, temperatureValue[..])
    }

    /** The zero-initialised static context. */
    constructor ()
      ensures Valid() && fresh(temperatureValue)
      ensures notificationStatus == 0 && Flags() == EnvFlags(0, 0, 0)
      ensures Values() == EnvValues(0, 0, [0, 0])
    {
      notificationStatus := 0;
      pressureValue, humidityValue := 0, 0;
      temperatureValue := new int16[TEMPERATURE_SLOTS](_ => 0);
      hasPressure, hasHumidity, hasTemperature := 0, 0, 0;
      new;
      assert temperatureValue[..] == [0, 0];
    }

    /** ENV_Set_Notification_Status. */
    method SetNotificationStatus(status: uint8)
      modifies this
      ensures notificationStatus == status && Flags() == old(Flags())
      ensures pressureValue == old(pressureValue) && humidityValue == old(humidityValue)
      ensures temperatureValue == old(temperatureValue)
    {
      notificationStatus := status;
    }

    /**
     * EnvSensor_GetCaps: each flag is raised by any instance that reports
     * the capability (hasTemperature counts them, as a `uint8_t`), then the
     * advertising byte gets the flags ORed in. In the NFC reader-only demo
     * only the pressure sensor is assumed.
     */
    method GetCaps(caps: seq<EnvCaps>, readerOnlyDemo: bool, manufData: array<bv8>)
      requires manufData.Length == MANUF_DATA_LEN
      modifies this, manufData
      ensures notificationStatus == old(notificationStatus) && temperatureValue == old(temperatureValue)
      ensures pressureValue == old(pressureValue) && humidityValue == old(humidityValue)
      ensures readerOnlyDemo ==>
        && Flags() == old(Flags()).(hasPressure := 1)
        && manufData[..] == old(manufData[..])[5 := old(manufData[5]) | 0x10]
      ensures !readerOnlyDemo ==>
        && hasPressure == (if AnyPressure(caps) then 1 else old(hasPressure))
        && hasHumidity == (if AnyHumidity(caps) then 1 else old(hasHumidity))
        && hasTemperature == (old(hasTemperature) as int + TemperatureCount(caps)) % 0x100
        && manufData[..] == old(manufData[..])[5 := EnvAdvByte(old(manufData[5]), hasTemperature, hasHumidity, hasPressure)]
    {
      if readerOnlyDemo {
        hasPressure := 1;
        manufData[5] := manufData[5] | 0x10;
        return;
      }
      ScanCaps(caps);
      AdvertiseEnv(manufData, hasTemperature, hasHumidity, hasPressure);
    }

    /** The loop of EnvSensor_GetCaps over the sensor instances. */
    method ScanCaps(caps: seq<EnvCaps>)
      modifies this
      ensures notificationStatus == old(notificationStatus) && temperatureValue == old(temperatureValue)
      ensures pressureValue == old(pressureValue) && humidityValue == old(humidityValue)
      ensures hasPressure == (if AnyPressure(caps) then 1 else old(hasPressure))
      ensures hasHumidity == (if AnyHumidity(caps) then 1 else old(hasHumidity))
      ensures hasTemperature == (old(hasTemperature) as int + TemperatureCount(caps)) % 0x100
    {
      var i := 0;
      while i < |caps|
        invariant 0 <= i <= |caps|
        invariant hasPressure == (if AnyPressure(caps[..i]) then 1 else old(hasPressure))
        invariant hasHumidity == (if AnyHumidity(caps[..i]) then 1 else old(hasHumidity))
        invariant hasTemperature == (old(hasTemperature) as int + TemperatureCount(caps[..i])) % 0x100
        invariant notificationStatus == old(notificationStatus) && temperatureValue == old(temperatureValue)
        invariant pressureValue == old(pressureValue) && humidityValue == old(humidityValue)
      {
        AnyStep(caps, i);
        if caps[i].pressure {
          hasPressure := 1;
        }
        if caps[i].humidity {
          hasHumidity := 1;
        }
        if caps[i].temperature {
          hasTemperature := (hasTemperature + 1) % 0x100;
        }
        i := i + 1;
      }
      assert caps[..i] == caps;
    }

    /** The three `|=` of EnvSensor_GetCaps, on a copy of manuf_data[5]. */
    static method OrEnvFlags(b: bv8, hasTemperature: uint8, hasHumidity: uint8, hasPressure: uint8) returns (r: bv8)
      ensures r == EnvAdvByte(b, hasTemperature, hasHumidity, hasPressure)
    {
      r := b;
      if hasTemperature > 1 {
        r := r | 0x05;
      } else if hasTemperature == 1 {
        r := r | 0x04;
      }
      if hasHumidity != 0 {
        r := r | 0x08;
      }
      if hasPressure != 0 {
        r := r | 0x10;
      }
    }

    /** The ORs of EnvSensor_GetCaps into manuf_data[5]. */
    static method AdvertiseEnv(manufData: array<bv8>, hasTemperature: uint8, hasHumidity: uint8, hasPressure: uint8)
      requires manufData.Length == MANUF_DATA_LEN
      modifies manufData
      ensures manufData[..] == old(manufData[..])[5 := EnvAdvByte(old(manufData[5]), hasTemperature, hasHumidity, hasPressure)]
    {
      var b := OrEnvFlags(manufData[5], hasTemperature, hasHumidity, hasPressure);
      manufData[5] := b;
    }

    /** ENV_Context_Init: the flags and the notification status are cleared, then the capabilities probed. */
    method ContextInit(caps: seq<EnvCaps>, readerOnlyDemo: bool, manufData: array<bv8>)
      requires manufData.Length == MANUF_DATA_LEN
      modifies this, manufData
      ensures notificationStatus == 0 && temperatureValue == old(temperatureValue)
      ensures pressureValue == old(pressureValue) && humidityValue == old(humidityValue)
      ensures readerOnlyDemo ==>
        && Flags() == EnvFlags(1, 0, 0)
        && manufData[..] == old(manufData[..])[5 := old(manufData[5]) | 0x10]
      ensures !readerOnlyDemo ==>
        && Flags() == EnvFlags(if AnyPressure(caps) then 1 else 0, if AnyHumidity(caps) then 1 else 0,
                               TemperatureCount(caps) % 0x100)
        && manufData[..] == old(manufData[..])[5 := EnvAdvByte(old(manufData[5]), hasTemperature, hasHumidity, hasPressure)]
    {
      hasPressure := 0;
      hasHumidity := 0;
      hasTemperature := 0;
      SetNotificationStatus(0);
      GetCaps(caps, readerOnlyDemo, manufData);
    }

    /** The NFC branch of ENV_Handle_Sensor's pressure step: parse string_buff in place. */
    static method ParseNfcPressure(stringBuff: array<uint8>) returns (parsed: Option<Fixed>)
      requires stringBuff.Length >= NFC_BUFF_MIN
      modifies stringBuff
      ensures (parsed, stringBuff[..]) == NfcPressure(old(stringBuff[..]))
    {
      parsed := None;
      if stringBuff[11] == DOT {
        stringBuff[13] := NUL;
        parsed := Some(Fixed(Atoi(stringBuff[8..]), Atoi(stringBuff[12..])));
      } else if stringBuff[12] == DOT {
        stringBuff[14] := NUL;
        parsed := Some(Fixed(Atoi(stringBuff[8..]), Atoi(stringBuff[13..])));
      }
    }

    /** The pressure part of one pass of ENV_Handle_Sensor's loop; returns the locals after it. */
    method ReadPressure(r: EnvReading, nfc: bool, stringBuff: array<uint8>, ghost tempIndex: nat, locals: Fixed)
      returns (locals': Fixed)
      requires stringBuff.Length >= NFC_BUFF_MIN
      modifies this, stringBuff
      ensures Flags() == old(Flags()) && notificationStatus == old(notificationStatus)
      ensures temperatureValue == old(temperatureValue) && humidityValue == old(humidityValue)
      ensures SensorState(Values(), tempIndex, locals')
           == PressureStep(hasPressure, SensorState(old(Values()), tempIndex, locals), r, NfcInput(nfc, old(stringBuff[..])))
      ensures stringBuff[..] == if nfc && hasPressure == 1 then NfcPressure(old(stringBuff[..])).1 else old(stringBuff[..])
    {
      locals' := locals;
      if hasPressure == 1 {
        if nfc {
          var parsed := ParseNfcPressure(stringBuff);
          if parsed.Some? {
            locals' := parsed.value;
          }
          pressureValue := Int32Of(Scaled(locals', 100));
        } else if r.pressure.Some? {
          locals' := r.pressure.value;
          pressureValue := Int32Of(Scaled(locals', 100));
        }
      }
    }

    /** One pass of ENV_Handle_Sensor's loop; `tempIndex` and `locals` are the loop's locals. */
    method HandleInstance(r: EnvReading, nfc: bool, stringBuff: array<uint8>, tempIndex: nat, locals: Fixed)
      returns (tempIndex': nat, locals': Fixed)
      requires Valid() && stringBuff.Length >= NFC_BUFF_MIN
      requires TakesTemperature(hasTemperature, r) ==> tempIndex < TEMPERATURE_SLOTS
      modifies this, temperatureValue, stringBuff
      ensures Valid() && temperatureValue == old(temperatureValue)
      ensures Flags() == old(Flags()) && notificationStatus == old(notificationStatus)
      ensures SensorState(Values(), tempIndex', locals')
           == InstanceStep(Flags(), SensorState(old(Values()), tempIndex, locals), r, NfcInput(nfc, old(stringBuff[..])))
      ensures stringBuff[..] == if nfc && hasPressure == 1 then NfcPressure(old(stringBuff[..])).1 else old(stringBuff[..])
    {
      tempIndex' := tempIndex;
      locals' := ReadPressure(r, nfc, stringBuff, tempIndex, locals);
      if hasHumidity == 1 && r.humidity.Some? {
        locals' := r.humidity.value;
        humidityValue := Scaled(locals', 10) % 0x1_0000;
      }
      if hasTemperature >= 1 && r.temperature.Some? {
        locals' := r.temperature.value;
        temperatureValue[tempIndex'] := Int16Of(Scaled(locals', 10));
        tempIndex' := tempIndex' + 1;
      }
    }

    /**
     * ENV_Handle_Sensor: the values after reading every instance in turn.
     * `locals0` is whatever intPart and decPart hold before the loop.
     */
    method HandleSensor(readings: seq<EnvReading>, nfc: bool, stringBuff: array<uint8>, locals0: Fixed)
      requires Valid() && stringBuff.Length >= NFC_BUFF_MIN
      requires TemperatureReads(hasTemperature, readings) <= TEMPERATURE_SLOTS
      modifies this, temperatureValue, stringBuff
      ensures Valid() && temperatureValue == old(temperatureValue)
      ensures Flags() == old(Flags()) && notificationStatus == old(notificationStatus)
      ensures Values() == HandledValues(Flags(), old(Values()), readings, NfcInput(nfc, old(stringBuff[..])), locals0)
      ensures stringBuff[..] == if nfc && hasPressure == 1 && |readings| > 0 then NfcPressure(old(stringBuff[..])).1
                                else old(stringBuff[..])
    {
      ghost var buf0 := stringBuff[..];
      ghost var nfcIn := NfcInput(nfc, buf0);
      ghost var st0 := SensorState(Values(), 0, locals0);
      var i := 0;
      var tempIndex: nat := 0;
      var locals := locals0;
      while i < |readings|
        invariant 0 <= i <= |readings|
        invariant Valid() && temperatureValue == old(temperatureValue)
        invariant Flags() == old(Flags()) && notificationStatus == old(notificationStatus)
        invariant TemperatureReads(hasTemperature, readings[..i]) <= TEMPERATURE_SLOTS
        invariant SensorState(Values(), tempIndex, locals) == SensorsAfter(Flags(), st0, readings[..i], nfcIn)
        invariant stringBuff[..] == if nfc && hasPressure == 1 && i > 0 then NfcPressure(buf0).1 else buf0
      {
        assert readings[..i + 1][..i] == readings[..i];
        TemperatureReadsPrefix(hasTemperature, readings, i + 1);
        NfcPressureIdempotent(buf0);
        tempIndex, locals := HandleInstance(readings[i], nfc, stringBuff, tempIndex, locals);
        i := i + 1;
      }
      assert readings[..i] == readings;
    }

    /**
     * ENV_Update: read the sensors, pack the packet and send it. `stack` is
     * what the uninitialised `value[]` holds.
     */
    method EnvUpdate(readings: seq<EnvReading>, nfc: bool, stringBuff: array<uint8>, locals0: Fixed,
                  tick: uint32, stack: seq<uint8>, radio: Radio)
      requires Valid() && stringBuff.Length >= NFC_BUFF_MIN && |stack| == VALUE_LEN_ENV
      requires hasTemperature as int <= TEMPERATURE_SLOTS
      requires TemperatureReads(hasTemperature, readings) <= TEMPERATURE_SLOTS
      modifies this, temperatureValue, stringBuff, radio
      ensures Valid() && temperatureValue == old(temperatureValue)
      ensures Flags() == old(Flags()) && notificationStatus == old(notificationStatus)
      ensures Values() == HandledValues(Flags(), old(Values()), readings, NfcInput(nfc, old(stringBuff[..])), locals0)
      ensures stringBuff[..] == if nfc && hasPressure == 1 && |readings| > 0 then NfcPressure(old(stringBuff[..])).1
                                else old(stringBuff[..])
      ensures radio.sent == old(radio.sent) + [Update(ENV_CHAR, EnvPacket(tick, Flags(), Values(), stack))]
    {
      HandleSensor(readings, nfc, stringBuff, locals0);
      var value := PackEnv(tick, Flags(), Values(), stack);
      radio.UpdateChar(ENV_CHAR, value[..]);
    }

    /** The packing part of ENV_Update: the fields go in after one another from BuffPos 0. */
    static method PackEnv(tick: uint32, fl: EnvFlags, v: EnvValues, stack: seq<uint8>) returns (value: array<uint8>)
      requires fl.hasTemperature as int <= TEMPERATURE_SLOTS && |v.temps| == TEMPERATURE_SLOTS && |stack| == VALUE_LEN_ENV
      ensures fresh(value) && value[..] == EnvPacket(tick, fl, v, stack)
    {
      value := StackValue(stack);
      var buffPos := PackFixed(value, tick, fl, v, stack);
      PackTemperatures(value, buffPos, fl, v, FixedFields(tick, fl, v), stack);
    }

    /** The timestamp, pressure and humidity stores of ENV_Update; returns BuffPos. */
    static method PackFixed(value: array<uint8>, tick: uint32, fl: EnvFlags, v: EnvValues, ghost stack: seq<uint8>)
      returns (buffPos: nat)
      requires value.Length == |stack| == VALUE_LEN_ENV && value[..] == [] + stack[0..]
      modifies value
      ensures buffPos == |FixedFields(tick, fl, v)|
      ensures value[..] == FixedFields(tick, fl, v) + stack[buffPos..]
    {
      buffPos := StoreNext(value, 0, Le16(tick / 8), [], stack);
      ghost var written := [] + Le16(tick / 8);
      if fl.hasPressure == 1 {
        buffPos := StoreNext(value, buffPos, Le32(v.pressure), written, stack);
      }
      written := written + PressureField(fl, v);
      if fl.hasHumidity == 1 {
        buffPos := StoreNext(value, buffPos, Le16(v.humidity), written, stack);
      }
      written := written + HumidityField(fl, v);
      assert written == FixedFields(tick, fl, v);
    }

    /** The temperature loop of ENV_Update. */
    static method PackTemperatures(value: array<uint8>, buffPos: nat, fl: EnvFlags, v: EnvValues,
                                   ghost fixedPart: seq<uint8>, ghost stack: seq<uint8>)
      requires fl.hasTemperature as int <= TEMPERATURE_SLOTS && |v.temps| == TEMPERATURE_SLOTS
      requires value.Length == |stack| && buffPos == |fixedPart|
      requires buffPos + TEMPERATURE_BYTES * fl.hasTemperature as int <= value.Length
      requires value[..] == fixedPart + stack[buffPos..]
      modifies value
      ensures var f := fixedPart + TemperatureBytes(v.temps[..fl.hasTemperature]);
        value[..] == f + stack[|f|..]
    {
      var pos := buffPos;
      ghost var written := fixedPart;
      var tempIndex := 0;
      while tempIndex < fl.hasTemperature as int
        invariant 0 <= tempIndex <= fl.hasTemperature as int
        invariant written == fixedPart + TemperatureBytes(v.temps[..tempIndex])
        invariant pos == |written| && pos + TEMPERATURE_BYTES * (fl.hasTemperature as int - tempIndex) <= value.Length
        invariant value[..] == written + stack[pos..]
      {
        assert v.temps[..tempIndex + 1][..tempIndex] == v.temps[..tempIndex];
        pos := StoreNext(value, pos, Le16(v.temps[tempIndex]), written, stack);
        written := written + Le16(v.temps[tempIndex]);
        tempIndex := tempIndex + 1;
      }
      assert v.temps[..tempIndex] == v.temps[..fl.hasTemperature];
    }

    /** `uint8_t value[VALUE_LEN_ENV]` before any store: what the stack held. */
    static method StackValue(stack: seq<uint8>) returns (value: array<uint8>)
      requires |stack| == VALUE_LEN_ENV
      ensures fresh(value) && value[..] == [] + stack[0..]
    {
      value := new uint8[VALUE_LEN_ENV](i requires 0 <= i < VALUE_LEN_ENV => stack[i]);
      assert value[..] == stack;
    }

    /**
     * One STORE_LE_* at BuffPos followed by the BuffPos increment: the
     * bytes written so far grow by `bytes`, the rest is still the stack's.
     */
    static method StoreNext(value: array<uint8>, buffPos: nat, bytes: seq<uint8>, ghost written: seq<uint8>, ghost stack: seq<uint8>)
      returns (buffPos': nat)
      requires buffPos == |written| && buffPos + |bytes| <= value.Length == |stack|
      requires value[..] == written + stack[buffPos..]
      modifies value
      ensures buffPos' == buffPos + |bytes|
      ensures value[..] == (written + bytes) + stack[buffPos'..]
    {
      Store(value, buffPos, bytes);
      buffPos' := buffPos + |bytes|;
      assert old(value[..])[..buffPos] == written;
      assert old(value[..])[buffPos + |bytes|..] == stack[buffPos'..];
    }

    /**
     * ENV_Send_Notification_Task: on the first connection the magnetometer
     * calibration status goes out for both sensor-fusion features and the
     * flag is cleared; then, with notifications on, ENV_Update runs.
     */
    method SendNotificationTask(config: ConfigServer.ConfigContext, magCalibrated: bool,
                                readings: seq<EnvReading>, nfc: bool, stringBuff: array<uint8>, locals0: Fixed,
                                tick: uint32, stack: seq<uint8>, radio: Radio)
      requires Valid() && stringBuff.Length >= NFC_BUFF_MIN && |stack| == VALUE_LEN_ENV
      requires hasTemperature as int <= TEMPERATURE_SLOTS
      requires TemperatureReads(hasTemperature, readings) <= TEMPERATURE_SLOTS
      modifies config, this, temperatureValue, stringBuff, radio
      ensures Valid() && temperatureValue == old(temperatureValue)
      ensures Flags() == old(Flags()) && notificationStatus == old(notificationStatus)
      ensures config.notificationStatus == old(config.notificationStatus)
      ensures config.firstConnectionConfig == if old(config.firstConnectionConfig) == 1 then 0 else old(config.firstConnectionConfig)
      ensures var calibration := if old(config.firstConnectionConfig) != 1 then [] else
                  var reply: uint8 := if magCalibrated then 100 else 0;
                  config.NotificationUpdates(tick, ConfigServer.FEATURE_MASK_SENSORFUSION_SHORT, ConfigServer.W2ST_COMMAND_CAL_STATUS, reply)
                  + config.NotificationUpdates(tick, ConfigServer.FEATURE_MASK_ECOMPASS, ConfigServer.W2ST_COMMAND_CAL_STATUS, reply);
        if notificationStatus != 0 then
          && Values() == HandledValues(Flags(), old(Values()), readings, NfcInput(nfc, old(stringBuff[..])), locals0)
          && radio.sent == old(radio.sent) + calibration + [Update(ENV_CHAR, EnvPacket(tick, Flags(), Values(), stack))]
        else
          && Values() == old(Values()) && stringBuff[..] == old(stringBuff[..])
          && radio.sent == old(radio.sent) + calibration
    {
      if config.GetFirstConnectionConfig() == 1 {
        var reply: uint8 := if magCalibrated then 100 else 0;
        config.SendNotification(radio, tick, ConfigServer.FEATURE_MASK_SENSORFUSION_SHORT, ConfigServer.W2ST_COMMAND_CAL_STATUS, reply);
        config.SendNotification(radio, tick, ConfigServer.FEATURE_MASK_ECOMPASS, ConfigServer.W2ST_COMMAND_CAL_STATUS, reply);
        config.SetFirstConnectionConfig(0);
      }
      if notificationStatus != 0 {
        EnvUpdate(readings, nfc, stringBuff, locals0, tick, stack, radio);
      }
    }
  }
}
