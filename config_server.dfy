/**
 * The MOTENV1 configuration service (config_server_app.c): its context, the
 * 8-byte reply packet on the configuration characteristic, and the parser
 * of configuration commands written by the client.
 *
 * The feature masks and command codes are declared in motenv_server_app.h,
 * which is not part of this model; the values below are those of the
 * BlueST protocol, and no proof depends on them beyond their being distinct.
 */
module ConfigServer {
  import opened ByteCodec
  import opened BleLink

  const VALUE_LEN_CONFIG := 2 + 4 + 1 + 1

  const FEATURE_MASK_SENSORFUSION_SHORT: uint32 := 0x0000_0100
  const FEATURE_MASK_ECOMPASS: uint32 := 0x0000_0040
  const FEATURE_MASK_ACC_EVENTS: uint32 := 0x0000_0400

  const W2ST_COMMAND_CAL_STATUS: uint8 := 0xFF
  const W2ST_COMMAND_CAL_RESET: uint8 := 0x00
  const W2ST_COMMAND_CAL_STOP: uint8 := 0x01

  /**
   * The reply packet: the millisecond tick divided by 8 (little-endian, low
   * 16 bits), the feature mask (big-endian), the command and the result.
   */
  function ConfigPacket(tick: uint32, feature: uint32, command: uint8, data: uint8): (v: seq<uint8>)
    ensures |v| == VALUE_LEN_CONFIG
  {
    Le16(tick / 8) + Be32(feature) + [command, data]
  }

  /** A client reads back from the packet the timestamp, the feature, the command and the result. */
  lemma ConfigPacketFields(tick: uint32, feature: uint32, command: uint8, data: uint8)
    ensures var v := ConfigPacket(tick, feature, command, data);
      && LoadLe16(v[0..2]) == (tick / 8) % 0x1_0000
      && LoadBe32(v[2..6]) == feature
      && v[6] == command && v[7] == data
  {
    var v := ConfigPacket(tick, feature, command, data);
    assert v[0..2] == Le16(tick / 8);
    assert v[2..6] == Be32(feature);
    Le16RoundTrip(tick / 8);
    Be32RoundTrip(feature);
  }

  /** CONFIG_Server_App_Context. */
  class ConfigContext {
    var notificationStatus: uint8
    var firstConnectionConfig: uint8

    /** The zero-initialised static context. */
    constructor ()
      ensures notificationStatus == 0 && firstConnectionConfig == 0
    {
      notificationStatus := 0;
      firstConnectionConfig := 0;
    }

    /** CONFIG_Context_Init. */
    method ContextInit()
      modifies this
      ensures notificationStatus == 0 && firstConnectionConfig == 0
    {
      SetNotificationStatus(0);
      SetFirstConnectionConfig(0);
    }

    /** CONFIG_Set_Notification_Status. */
    method SetNotificationStatus(status: uint8)
      modifies this
      ensures GetNotificationStatus() == status
      ensures firstConnectionConfig == old(firstConnectionConfig)
    {
      notificationStatus := status;
    }

    /** CONFIG_Get_Notification_Status. */
    function GetNotificationStatus(): uint8
      reads this
    {
      notificationStatus
    }

    /** CONFIG_Set_FirstConnection_Config. */
    method SetFirstConnectionConfig(status: uint8)
      modifies this
      ensures GetFirstConnectionConfig() == status
      ensures notificationStatus == old(notificationStatus)
    {
      firstConnectionConfig := status;
    }

    /** CONFIG_Get_FirstConnection_Config. */
    function GetFirstConnectionConfig(): uint8
      reads this
    {
      firstConnectionConfig
    }

    /** What CONFIG_Send_Notification sends: the packet, unless notifications are off. */
    function NotificationUpdates(tick: uint32, feature: uint32, command: uint8, data: uint8): seq<Update>
      reads this
    {
      if notificationStatus != 0 then [Update(CONFIG_CHAR, ConfigPacket(tick, feature, command, data))] else []
    }

    /** CONFIG_Send_Notification; `tick` is the HAL_GetTick reading. */
    method SendNotification(radio: Radio, tick: uint32, feature: uint32, command: uint8, data: uint8)
      modifies radio
      ensures radio.sent == old(radio.sent) + NotificationUpdates(tick, feature, command, data)
      ensures notificationStatus == 0 ==> radio.sent == old(radio.sent)
      ensures notificationStatus != 0 ==> radio.sent == old(radio.sent) + [Update(CONFIG_CHAR, ConfigPacket(tick, feature, command, data))]
    {
      var value := ConfigPacket(tick, feature, command, data);
      if notificationStatus != 0 {
        radio.UpdateChar(CONFIG_CHAR, value);
      }
    }
  }
}
