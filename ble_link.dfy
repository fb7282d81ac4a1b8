/**
 * The GATT characteristic updates the MOTENV1 servers hand to the BLE stack
 * through MOTENV_STM_App_Update_Char. The stack itself is not modelled: a
 * `Radio` only records, in order, which characteristic was updated with
 * which bytes.
 */
module BleLink {
  import opened ByteCodec

  /** The characteristics the modelled servers write. */
  datatype Characteristic =
    | CONFIG_CHAR
    | ACC_EVENT_CHAR
    | CONSOLE_TERM_CHAR
    | CONSOLE_STDERR_CHAR
    | ENV_CHAR
    | MOTION_CHAR

  /** One call of MOTENV_STM_App_Update_Char: the characteristic and the value bytes. */
  datatype Update = Update(ch: Characteristic, value: seq<uint8>)

  /** The log of characteristic updates sent so far. */
  class Radio {
    var sent: seq<Update>

    constructor ()
      ensures sent == []
    {
      sent := [];
    }

    /** MOTENV_STM_App_Update_Char. */
    method UpdateChar(ch: Characteristic, value: seq<uint8>)
      modifies this
      ensures sent == old(sent) + [Update(ch, value)]
    {
      sent := sent + [Update(ch, value)];
    }
  }

  /** The length of `manuf_data`, the manufacturer-specific advertising data the servers flag their sensors in. */
  const MANUF_DATA_LEN := 14
}
