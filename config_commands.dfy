/**
 * CONFIG_Parse_Command (config_server_app.c): the six-byte command a client
 * writes on the configuration characteristic, and what the firmware does
 * with it. Sensor-fusion masks ask for the magnetometer calibration status
 * or reset the calibration; the accelerometer-event mask switches one event
 * feature of the MotionExt service on or off and confirms it.
 *
 * The calibration library is outside the model: its status is the input
 * `magCalibrated`, and a calibration reset is reported as an output flag.
 */
module ConfigCommands {
  import opened ByteCodec
  import opened StErrno
  import opened BleLink
  import opened ConfigServer
  import opened MotionExt

  /** A configuration command: the feature mask, the command code and its argument. */
  datatype ConfigCommand = ConfigCommand(featureMask: uint32, command: uint8, data: uint8)

  /** The command's bytes: the feature mask is big-endian in bytes 0..3. */
  function DecodeCommand(att: seq<uint8>): ConfigCommand
    requires |att| >= 6
  {
    ConfigCommand(LoadBe32(att[0..4]), att[4], att[5])
  }

  /** The six bytes a client writes for a command. */
  function EncodeCommand(c: ConfigCommand): (att: seq<uint8>)
    ensures |att| == 6
  {
    Be32(c.featureMask) + [c.command, c.data]
  }

  /** Encoding and decoding a command are inverse to each other. */
  lemma CommandRoundTrip(c: ConfigCommand, att: seq<uint8>)
    ensures DecodeCommand(EncodeCommand(c)) == c
    ensures |att| == 6 ==> EncodeCommand(DecodeCommand(att)) == att
  {
    assert EncodeCommand(c)[0..4] == Be32(c.featureMask);
    Be32RoundTrip(c.featureMask);
    if |att| == 6 {
      LoadBe32RoundTrip(att[0..4]);
      assert att == att[0..4] + [att[4], att[5]];
    }
  }

  /** The accelerometer-event command letters. */
  function AccEventFeature(command: uint8): Option<Feature>
  {
    if command == 'm' as uint8 then Some(MULTIPLE_EVENTS)
    else if command == 'f' as uint8 then Some(FREE_FALL)
    else if command == 'd' as uint8 then Some(DOUBLE_TAP)
    else if command == 's' as uint8 then Some(SINGLE_TAP)
    else if command == 'p' as uint8 then Some(PEDOMETER)
    else if command == 'w' as uint8 then Some(WAKE_UP)
    else if command == 't' as uint8 then Some(TILT)
    else if command == 'o' as uint8 then Some(ORIENTATION_6D)
    else None
  }

  /** The letter that switches a feature. */
  function CommandLetter(f: Feature): uint8
  {
    match f
    case MULTIPLE_EVENTS => 'm' as uint8
    case FREE_FALL => 'f' as uint8
    case DOUBLE_TAP => 'd' as uint8
    case SINGLE_TAP => 's' as uint8
    case PEDOMETER => 'p' as uint8
    case WAKE_UP => 'w' as uint8
    case TILT => 't' as uint8
    case ORIENTATION_6D => 'o' as uint8
  }

  /** Every feature has exactly one letter. */
  lemma CommandLetters(f: Feature, command: uint8)
    ensures AccEventFeature(CommandLetter(f)) == Some(f)
    ensures AccEventFeature(command) == Some(f) ==> command == CommandLetter(f)
  {
  }

  /** What a command makes the firmware do. */
  datatype Action =
    | Reply(value: uint8)          // send the calibration status back
    | Recalibrate                  // MOTIONFX_ReCalibration
    | Switch(f: Feature, on: bool) // MOTION_EXT_Enable_Feature / _Disable_Feature, then confirm
    | Ignore

  /** The branch of CONFIG_Parse_Command a command takes. */
  function ActionOf(c: ConfigCommand, magCalibrated: bool): Action
  {
    if c.featureMask == FEATURE_MASK_SENSORFUSION_SHORT || c.featureMask == FEATURE_MASK_ECOMPASS then
      if c.command == W2ST_COMMAND_CAL_STATUS then Reply(if magCalibrated then 100 else 0)
      else if c.command == W2ST_COMMAND_CAL_RESET then Recalibrate
      else Ignore
    else if c.featureMask == FEATURE_MASK_ACC_EVENTS then
      match AccEventFeature(c.command)
      case Some(f) => if c.data == 1 then Switch(f, true) else if c.data == 0 then Switch(f, false) else Ignore
      case None => Ignore
    else Ignore
  }

  /**
   * Each feature is switched by exactly one command: the accelerometer-event
   * mask, the feature's letter and 1 (on) or 0 (off).
   */
  lemma SwitchCommands(c: ConfigCommand, magCalibrated: bool, f: Feature, on: bool)
    ensures ActionOf(c, magCalibrated) == Switch(f, on)
        <==> c == ConfigCommand(FEATURE_MASK_ACC_EVENTS, CommandLetter(f), if on then 1 else 0)
  {
    CommandLetters(f, c.command);
  }

  /**
   * Only a calibration-status request on one of the two sensor-fusion masks
   * is answered, with 100 when the magnetometer is calibrated and 0 when it
   * is not; only a reset on those masks recalibrates.
   */
  lemma CalibrationCommands(c: ConfigCommand, magCalibrated: bool)
    ensures ActionOf(c, magCalibrated).Reply?
        <==> (c.featureMask == FEATURE_MASK_SENSORFUSION_SHORT || c.featureMask == FEATURE_MASK_ECOMPASS)
             && c.command == W2ST_COMMAND_CAL_STATUS
    ensures ActionOf(c, magCalibrated).Reply? ==> ActionOf(c, magCalibrated).value == if magCalibrated then 100 else 0
    ensures ActionOf(c, magCalibrated) == Recalibrate
        <==> (c.featureMask == FEATURE_MASK_SENSORFUSION_SHORT || c.featureMask == FEATURE_MASK_ECOMPASS)
             && c.command == W2ST_COMMAND_CAL_RESET
  {
  }

  /**
   * CONFIG_Parse_Command. `att` holds at least the six bytes the firmware
   * reads; the result is SendItBack, which is always 1, and whether the
   * magnetometer calibration was reset.
   */
  method ParseCommand(att: seq<uint8>, magCalibrated: bool, config: ConfigContext, ext: MotionExtServer,
                      drv: Driver, radio: Radio, tick: uint32)
    returns (sendItBack: uint8, recalibrate: bool)
    requires |att| >= 6
    modifies ext, radio
    ensures sendItBack == 1
    ensures recalibrate <==> ActionOf(DecodeCommand(att), magCalibrated) == Recalibrate
    ensures var c := DecodeCommand(att);
      match ActionOf(c, magCalibrated)
      case Reply(v) =>
        ext.State() == old(ext.State())
        && radio.sent == old(radio.sent) + config.NotificationUpdates(tick, c.featureMask, c.command, v)
      case Switch(f, true) =>
        ext.State() == EnableFeatureEffect(old(ext.State()), Bit(f) as uint8, drv)
        && radio.sent == old(radio.sent) + EnableFeatureSent(old(ext.State()), Bit(f) as uint8, tick)
                         + config.NotificationUpdates(tick, FEATURE_MASK_ACC_EVENTS, c.command, 1)
      case Switch(f, false) =>
        ext.State() == DisableFeatureEffect(old(ext.State()), Bit(f) as uint8, drv)
        && radio.sent == old(radio.sent) + config.NotificationUpdates(tick, FEATURE_MASK_ACC_EVENTS, c.command, 0)
      case _ =>
        ext.State() == old(ext.State()) && radio.sent == old(radio.sent)
  {
    var featureMask := LoadBe32(att[0..4]);
    var command := att[4];
    var data := att[5];
    sendItBack := 1;
    recalibrate := false;
    if featureMask == FEATURE_MASK_SENSORFUSION_SHORT || featureMask == FEATURE_MASK_ECOMPASS {
      if command == W2ST_COMMAND_CAL_STATUS {
        config.SendNotification(radio, tick, featureMask, command, if magCalibrated then 100 else 0);
      } else if command == W2ST_COMMAND_CAL_RESET {
        recalibrate := true;
      }
    } else if featureMask == FEATURE_MASK_ACC_EVENTS {
      var f := AccEventFeature(command);
      if f.Some? {
        if data == 1 {
          SwitchFeature(f.value, true, command, config, ext, drv, radio, tick);
        } else if data == 0 {
          SwitchFeature(f.value, false, command, config, ext, drv, radio, tick);
        }
      }
    }
  }

  /** The accelerometer-event branch once the feature is known: switch it, then echo the command. */
  method SwitchFeature(f: Feature, on: bool, command: uint8, config: ConfigContext, ext: MotionExtServer,
                       drv: Driver, radio: Radio, tick: uint32)
    modifies ext, radio
    ensures on ==>
      && ext.State() == EnableFeatureEffect(old(ext.State()), Bit(f) as uint8, drv)
      && radio.sent == old(radio.sent) + EnableFeatureSent(old(ext.State()), Bit(f) as uint8, tick)
                       + config.NotificationUpdates(tick, FEATURE_MASK_ACC_EVENTS, command, 1)
    ensures !on ==>
      && ext.State() == DisableFeatureEffect(old(ext.State()), Bit(f) as uint8, drv)
      && radio.sent == old(radio.sent) + config.NotificationUpdates(tick, FEATURE_MASK_ACC_EVENTS, command, 0)
  {
    if on {
      ext.EnableFeature(Bit(f) as uint8, drv, radio, tick);
      config.SendNotification(radio, tick, FEATURE_MASK_ACC_EVENTS, command, 1);
    } else {
      ext.DisableFeature(Bit(f) as uint8, drv);
      config.SendNotification(radio, tick, FEATURE_MASK_ACC_EVENTS, command, 0);
    }
  }
}
