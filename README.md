# NDEF test checkers and MOTENV1 BLE servers, in Dafny

This project models two parts of the STM32WB BLE/NFC reader firmware and proves properties about them.

**The NDEF test checkers.** The unitary NDEF tests hold the comparison and validation logic for NFC Forum NDEF records and messages:
- record and message matching, and record copy;
- the two conformance checkers, for section 2.5 and section 3.3 of the NFC Forum NDEF Technical Specification;
- the `MY_ASSERT` and `CHECK_RANGE` guards.

The system tests add the tag framing helpers:
- the NDEF Message TLV of Type 2 and Type 5 tags;
- the Type 3 tag Attribute Information Block checksum;
- the per-tag write offset;
- the empty-message preparation result;
- the state bound check of `ndefDumpInfo`.

The NDEF codec itself is not part of this model. Only a minimal record wire layout (section 3.2 of the NDEF Technical Specification) is defined, so that the round trips the tests assert can be stated.

**The MOTENV1 BLE server applications:**
- the configuration server: context, notification packet and command parser;
- the accelerometer-event server: the `HWExtFeaturesStatus` bitmask state machine, the 6D orientation decoder, the event notifications and the interrupt handler;
- the console server: 20-byte chunking with an 8-bit offset;
- the environmental and motion servers: sensor update rules, packet packing and advertisement capability bits.

Every characteristic update goes to a `BleLink.Radio` object, which logs each `(characteristic, bytes)` pair it is handed. Contracts speak about that log.

| file | module | models |
|---|---|---|
| ble_link.dfy | BleLink | the characteristic-update sink |
| bytes.dfy | ByteCodec | fixed-width integers, `STORE_LE_16/32`, `STORE_BE_32` and their inverses |
| st_errno.dfy | StErrno | return codes and the outcome of a checker (a code, or a read through NULL / out of bounds) |
| ndef_record.dfy | NdefRecord | header bits, records, `ndefRecordMatch`, `ndefRecordCopy`, the record wire layout |
| ndef_message.dfy | NdefMessage | append flags, `ndefMessageMatch`, the message wire layout |
| ndef_checks.dfy | NdefChecks | `MY_ASSERT`, `CHECK_RANGE`, `ndefMessageConformance`, `ndefMessageTestRequirements` |
| ndef_system.dfy | NdefSystem | `ndefDumpInfo`, `PrepareWriteEmptyMessage`, `WrapMessage`, write offsets, the AIB checksum |
| config_server.dfy | ConfigServer | the configuration context and `CONFIG_Send_Notification` |
| config_commands.dfy | ConfigCommands | `CONFIG_Parse_Command` |
| motion_ext_server.dfy | MotionExt | the accelerometer-event server |
| console_server.dfy | ConsoleServer | the console server |
| env_server.dfy | EnvServer | the environmental server |
| motion_server.dfy | MotionServer | the motion server |

## Model

| member | source | states |
|---|---|---|
| BleLink.Radio.UpdateChar | Projects/P-NUCLEO-WB55.Nucleo/Applications/MOTENV1/STM32_WPAN/App/config_server_app.c:132 | a characteristic update appends exactly that (characteristic, bytes) pair to the log |
| ByteCodec.Le16RoundTrip | Projects/P-NUCLEO-WB55.Nucleo/Applications/MOTENV1/STM32_WPAN/App/config_server_app.c:121 | reading back a little-endian 16-bit store gives the value modulo 2^16 |
| ByteCodec.Le16SignedRoundTrip | Projects/P-NUCLEO-WB55.Nucleo/Applications/MOTENV1/STM32_WPAN/App/motion_server_app.c:135-137 | a stored `int16_t` reads back as the same signed value |
| ByteCodec.Le32RoundTrip | Projects/P-NUCLEO-WB55.Nucleo/Applications/MOTENV1/STM32_WPAN/App/env_server_app.c:159 | reading back a little-endian 32-bit store gives the value modulo 2^32 |
| ByteCodec.Le32SignedRoundTrip | Projects/P-NUCLEO-WB55.Nucleo/Applications/MOTENV1/STM32_WPAN/App/env_server_app.c:159 | a stored `int32_t` reads back as the same signed value |
| ByteCodec.Be32RoundTrip | Projects/P-NUCLEO-WB55.Nucleo/Applications/MOTENV1/STM32_WPAN/App/config_server_app.c:122 | a big-endian store reads back as the value and is the little-endian store reversed |
| ByteCodec.LoadBe32RoundTrip | Projects/P-NUCLEO-WB55.Nucleo/Applications/MOTENV1/STM32_WPAN/App/config_server_app.c:152 | decoding four bytes big-endian and storing them again gives the same four bytes |
| ByteCodec.Store | Projects/P-NUCLEO-WB55.Nucleo/Applications/MOTENV1/STM32_WPAN/App/env_server_app.c:155-171 | a store overwrites exactly the bytes at `pos .. pos+|bytes|` and keeps every other byte |
| NdefRecord.HeaderFieldsRoundTrip | Middlewares/ST/ndef/test/ndef_unitary_tests.c:535 | `ndefHeader(mb, me, cf, sr, il, tnf)` reads back each field it was built from |
| NdefRecord.HeaderByteRoundTrip | Middlewares/ST/ndef/test/ndef_unitary_tests.c:220-225 | every header byte is rebuilt exactly from its six fields |
| NdefRecord.WithMB | Middlewares/ST/ndef/test/ndef_unitary_tests.c:1222-1250 | setting MB changes only MB |
| NdefRecord.WithME | Middlewares/ST/ndef/test/ndef_unitary_tests.c:1222-1250 | setting ME changes only ME |
| NdefRecord.WithSR | Middlewares/ST/ndef/test/ndef_unitary_tests.c:904-947 | setting SR changes only SR, and setting it to its current value changes nothing |
| NdefRecord.RecordMatch | Middlewares/ST/ndef/test/ndef_unitary_tests.c:100-131 | a match implies two present records with equal header, type and id |
| NdefRecord.RecordMatchMeaning | Middlewares/ST/ndef/test/ndef_unitary_tests.c:107-124 | records match iff header, type and id agree and either the payload lengths are equal or one caches a typed value and both report equal payload lengths |
| NdefRecord.MatchNullIsFalse | Middlewares/ST/ndef/test/ndef_unitary_tests.c:102-105 | a missing record matches nothing |
| NdefRecord.MatchReflexive | Middlewares/ST/ndef/test/ndef_unitary_tests.h:113-123 | every record matches itself |
| NdefRecord.MatchSymmetric | Middlewares/ST/ndef/test/ndef_unitary_tests.h:113-123 | matching does not depend on argument order |
| NdefRecord.PayloadBytesNotDecisive | Middlewares/ST/ndef/test/ndef_unitary_tests.c:113-124 | equal header, type, id and payload length are enough to match |
| NdefRecord.DifferentPayloadsMatch | Middlewares/ST/ndef/test/ndef_unitary_tests.c:113-124 | two records whose payload bytes differ still match |
| NdefRecord.RecordSlot.constructor | Middlewares/ST/ndef/test/ndef_unitary_tests.c:77-96 | a fresh slot holds the given record and no link |
| NdefRecord.RecordCopy | Middlewares/ST/ndef/test/ndef_unitary_tests.c:77-96 | a missing source or destination gives `ERR_NOMEM`; otherwise every field except `next` is copied, `ERR_NONE` is returned and the copy matches the source |
| NdefRecord.WireLength | Middlewares/ST/ndef/test/ndef_unitary_tests.c:909-916 | an encoded untyped record is at least `NDEF_MIN_RECORD_LEN` bytes |
| NdefRecord.EncodePrefix | Middlewares/ST/ndef/test/ndef_unitary_tests.c:904-947 | the fixed part is 2 bytes, plus 1 or 4 bytes of payload length, plus 1 id-length byte when IL is set |
| NdefRecord.Encode | Middlewares/ST/ndef/test/ndef_unitary_tests.c:931-934 | the encoding of an untyped record is exactly `WireLength` bytes long |
| NdefRecord.EncodeInto | Middlewares/ST/ndef/test/ndef_unitary_tests.c:902-934 | encoding fails with `ERR_NOMEM` and reports the required length iff the buffer is too small; otherwise it writes `WireLength` bytes |
| NdefRecord.ZeroCapacityProbe | Middlewares/ST/ndef/test/ndef_unitary_tests.c:900-916 | a zero-capacity encode fails and reports the record length, which is at least 3 |
| NdefRecord.DecodePrefix | Middlewares/ST/ndef/test/ndef_unitary_tests.c:937 | a decoded fixed part never claims more bytes than the buffer holds |
| NdefRecord.Decode | Middlewares/ST/ndef/test/ndef_unitary_tests.c:937 | a decoded record uses at least 3 and at most all of the buffer's bytes |
| NdefRecord.PrefixRoundTrip | Middlewares/ST/ndef/test/ndef_unitary_tests.c:922-941 | for such a record, the fixed part decodes back to the header and the three lengths it was encoded from |
| NdefRecord.RecordRoundTrip | Middlewares/ST/ndef/test/ndef_unitary_tests.c:918-947 | for an untyped record whose SR bit agrees with its payload size and which has an id only when IL is set, decoding its encoding (with any bytes after it) gives the record back, with the payload as bytes and no typed value; it uses `WireLength` bytes and matches the original |
| NdefRecord.DecodeEncoded | Middlewares/ST/ndef/test/ndef_unitary_tests.c:922-941 | for such a record, decoding its encoding, with any bytes after it, gives exactly that record and length |
| NdefRecord.DecodeParts | Middlewares/ST/ndef/test/ndef_unitary_tests.c:937 | a buffer laid out as fixed part, type, id and payload decodes to a record with those fields |
| NdefRecord.EmptyRecordRoundTrip | Middlewares/ST/ndef/test/ndef_unitary_tests.c:883-947 | the reset record encodes, decodes and matches itself |
| NdefMessage.AppendPlacesFlags | Middlewares/ST/ndef/test/ndef_unitary_tests.c:642-705 | appending keeps MB on the head and ME on the tail, clears ME on the old tail, and leaves all other records unchanged |
| NdefMessage.ThreeRecordFlags | Middlewares/ST/ndef/test/ndef_unitary_tests.c:1204-1250 | after three appends the flags are (MB,ME) = (1,0), (0,0), (0,1) |
| NdefMessage.Message.constructor | Middlewares/ST/ndef/test/ndef_unitary_tests.c:636-658 | a new message has no records |
| NdefMessage.Message.Append | Middlewares/ST/ndef/test/ndef_unitary_tests.c:660-705 | append adds one record, places the flags and raises the record count by one |
| NdefMessage.MessageMatch | Middlewares/ST/ndef/test/ndef_unitary_tests.c:135-166 | the loop returns true iff both lists have the same length and every pair of records at the same position matches |
| NdefMessage.MessagesMatchReflexive | Middlewares/ST/ndef/test/ndef_unitary_tests.h:125-135 | a message matches itself |
| NdefMessage.MessagesMatchSymmetric | Middlewares/ST/ndef/test/ndef_unitary_tests.h:125-135 | message matching does not depend on argument order |
| NdefMessage.MessageRoundTrip | Middlewares/ST/ndef/test/ndef_unitary_tests.c:959-1040 | for wire-consistent (untyped) records, decoding an encoded message gives the same number of records, each in its decoded form; the result matches the original and re-encodes to the same bytes |
| NdefMessage.ReencodeDecoded | Middlewares/ST/ndef/test/ndef_unitary_tests.c:1023-1037 | an untyped record and its decoded form, with the payload as plain bytes, encode to the same bytes |
| NdefChecks.MyAssert | Middlewares/ST/ndef/test/ndef_unitary_tests.h:62 | the guard returns nothing iff the condition holds, and otherwise exactly the given error |
| NdefChecks.CheckRange | Middlewares/ST/ndef/test/ndef_unitary_tests.h:63 | the guard returns only `ERR_PARAM`; with `min == 0` it checks `value <= max` alone, otherwise `min <= value <= max` |
| NdefChecks.HeaderRangesNeverFail | Middlewares/ST/ndef/test/ndef_unitary_tests.c:220-225 | none of the header range checks can fail, TNF 7 included |
| NdefChecks.Conformance | Middlewares/ST/ndef/test/ndef_unitary_tests.c:177-346 | the walk gives `ERR_NOMSG` without records, `ERR_SYNTAX` when a mechanism rule fails, and otherwise ends reading through NULL |
| NdefChecks.ConformanceNeverSucceeds | Middlewares/ST/ndef/test/ndef_unitary_tests.c:331-345 | conformance never returns `ERR_NONE`, and it reads through NULL exactly when every mechanism rule holds |
| NdefChecks.OrdinaryRecordRejected | Middlewares/ST/ndef/test/ndef_unitary_tests.c:245 | a single record with MB=ME=1 and CF=0 gives `ERR_SYNTAX` |
| NdefChecks.ChunkedMessagesAreUntyped | Middlewares/ST/ndef/test/ndef_unitary_tests.c:253-306 | a message of two or more records that passes every rule has an empty first type |
| NdefChecks.SingleRecordRules | Middlewares/ST/ndef/test/ndef_unitary_tests.c:202-245 | a single record passes the rules iff MB=1, ME=0 and CF=1 |
| NdefChecks.RecordCheckMeaning | Middlewares/ST/ndef/test/ndef_unitary_tests.c:375-470 | a record passes the per-record checks iff it meets the section 3.3 requirements; any failure is `ERR_SYNTAX` |
| NdefChecks.ReservedTnfRejected | Middlewares/ST/ndef/test/ndef_unitary_tests.c:398-430 | the TNF range check lets 7 through, and the record is then rejected with `ERR_SYNTAX` |
| NdefChecks.FirstFailing | Middlewares/ST/ndef/test/ndef_unitary_tests.c:371-476 | the index returned is that of the first record failing a check, or the count when none fails |
| NdefChecks.FirstFailingIs | Middlewares/ST/ndef/test/ndef_unitary_tests.c:371-476 | the first failing index is unique |
| NdefChecks.TestRequirements | Middlewares/ST/ndef/test/ndef_unitary_tests.c:356-487 | the walk gives `ERR_NOMSG` for a missing message, the first failing record's error, `ERR_NONE` when every record passes, and a read through NULL for an empty list |
| NdefChecks.RequirementsMeaning | Middlewares/ST/ndef/test/ndef_unitary_tests.c:356-487 | an empty list reads through NULL; otherwise the result is `ERR_NONE` iff every record meets the requirements, and `ERR_SYNTAX` if not |
| NdefSystem.DumpInfo | Middlewares/ST/ndef/test/ndef_system_tests.c:106-132 | a missing info gives `ERR_PARAM` |
| NdefSystem.DumpInfoOverrun | Middlewares/ST/ndef/test/ndef_system_tests.c:108-127 | the state check lets exactly state 4 through to an out-of-bounds table read |
| NdefSystem.DumpInfoBoundedSafe | Middlewares/ST/ndef/test/ndef_system_tests.c:106-132 | the corrected check never reads out of bounds, succeeds iff the state indexes the table, and agrees with the code as written except at state 4 |
| NdefSystem.PrepareWriteEmptyMessage | Middlewares/ST/ndef/test/ndef_system_tests.c:143-197 | `ERR_NONE` iff there is a context and the tag is T2T or NFC-A T4T; `ERR_NOT_IMPLEMENTED` for T1T, T3T, NFC-B T4T and T5T; `ERR_PARAM` without a context or for any other type |
| NdefSystem.TlvWrap | Middlewares/ST/ndef/test/ndef_system_tests.c:379-384 | the TLV is three bytes longer than the payload |
| NdefSystem.TlvUnwrap | Middlewares/ST/ndef/test/ndef_system_tests.c:379-384 | an unwrapped payload is at least three bytes shorter than its frame |
| NdefSystem.TlvRoundTrip | Middlewares/ST/ndef/test/ndef_system_tests.c:379-384 | a payload of fewer than 255 bytes unwraps back from its TLV, whatever follows the terminator |
| NdefSystem.TlvWrapLosesLongMessages | Middlewares/ST/ndef/test/ndef_system_tests.c:380 | a payload of 255 bytes or more does not unwrap back from the as-written TLV |
| NdefSystem.TlvWrapLongRoundTrip | Middlewares/ST/ndef/test/ndef_system_tests.c:379-384 | with the three-byte length form, every payload below 65535 bytes unwraps back |
| NdefSystem.NdefBuffer.constructor | Middlewares/ST/ndef/test/ndef_system_tests.c:361 | a new buffer has the given capacity |
| NdefSystem.WrapMessage | Middlewares/ST/ndef/test/ndef_system_tests.c:361-441 | missing buffers give `ERR_PARAM`; T2T and T5T give `ERR_NOMEM` unchanged when the frame does not fit, otherwise the TLV, a new length and the bytes after it untouched; T3T gives `ERR_NONE` unchanged; every other type gives `ERR_NOT_IMPLEMENTED` unchanged |
| NdefSystem.WriteTlv | Middlewares/ST/ndef/test/ndef_system_tests.c:375-385 | the T2T/T5T branch: `ERR_NOMEM` unchanged, or the TLV written in front of the old bytes |
| NdefSystem.T3TMessageFollowsAib | Middlewares/ST/ndef/test/ndef_system_tests.c:462-495 | on a Type 3 tag the message offset is the AIB's length: after the AIB write at 0 and the message write, the tag holds the whole AIB, then the whole message, then its old bytes |
| NdefSystem.MessageInsideAibClobbersIt | Middlewares/ST/ndef/test/ndef_system_tests.c:485-495 | any offset inside the AIB block would overwrite an AIB byte, so the block length is the least offset that keeps the AIB |
| NdefSystem.Sum | Middlewares/ST/ndef/test/ndef_system_tests.c:484-487 | a byte sum is at most 255 per byte |
| NdefSystem.UpdateAib | Middlewares/ST/ndef/test/ndef_system_tests.c:482-490 | bytes 0..12 are kept, byte 13 gets the low byte of the length, and the stored checksum is the sum of bytes 0..13 |
| NdefSystem.AibChecksumNeverWraps | Middlewares/ST/ndef/test/ndef_system_tests.c:483-490 | the sum of 14 bytes fits in 16 bits, so the big-endian bytes 14-15 hold exactly that sum |
| ConfigServer.ConfigPacket | Projects/P-NUCLEO-WB55.Nucleo/Applications/MOTENV1/STM32_WPAN/App/config_server_app.c:29 | the packet is `VALUE_LEN_CONFIG` (8) bytes |
| ConfigServer.ConfigPacketFields | Projects/P-NUCLEO-WB55.Nucleo/Applications/MOTENV1/STM32_WPAN/App/config_server_app.c:118-124 | the packet reads back as tick/8 (LE16), feature (BE32), command and data |
| ConfigServer.ConfigContext.constructor | Projects/P-NUCLEO-WB55.Nucleo/Applications/MOTENV1/STM32_WPAN/App/config_server_app.c:48 | the context starts with both bytes 0 |
| ConfigServer.ConfigContext.ContextInit | Projects/P-NUCLEO-WB55.Nucleo/Applications/MOTENV1/STM32_WPAN/App/config_server_app.c:63-67 | init clears the notification status and the first-connection flag |
| ConfigServer.ConfigContext.SetNotificationStatus | Projects/P-NUCLEO-WB55.Nucleo/Applications/MOTENV1/STM32_WPAN/App/config_server_app.c:74-87 | the getter returns what was set, and the other field is unchanged |
| ConfigServer.ConfigContext.SetFirstConnectionConfig | Projects/P-NUCLEO-WB55.Nucleo/Applications/MOTENV1/STM32_WPAN/App/config_server_app.c:94-107 | the getter returns what was set, and the other field is unchanged |
| ConfigServer.ConfigContext.SendNotification | Projects/P-NUCLEO-WB55.Nucleo/Applications/MOTENV1/STM32_WPAN/App/config_server_app.c:116-142 | with notifications on, exactly one packet goes to the config characteristic; otherwise nothing is sent |
| ConfigCommands.EncodeCommand | Projects/P-NUCLEO-WB55.Nucleo/Applications/MOTENV1/STM32_WPAN/App/config_server_app.c:152-154 | a command is six bytes on the wire |
| ConfigCommands.CommandRoundTrip | Projects/P-NUCLEO-WB55.Nucleo/Applications/MOTENV1/STM32_WPAN/App/config_server_app.c:152-154 | decoding the mask big-endian, the command and the data is inverse to encoding, both ways |
| ConfigCommands.CommandLetters | Projects/P-NUCLEO-WB55.Nucleo/Applications/MOTENV1/STM32_WPAN/App/config_server_app.c:183-292 | the command letters and the accelerometer features are in one-to-one correspondence |
| ConfigCommands.SwitchCommands | Projects/P-NUCLEO-WB55.Nucleo/Applications/MOTENV1/STM32_WPAN/App/config_server_app.c:183-292 | a command switches feature f on (off) iff it is the ACC_EVENTS mask, f's letter and data 1 (0) |
| ConfigCommands.CalibrationCommands | Projects/P-NUCLEO-WB55.Nucleo/Applications/MOTENV1/STM32_WPAN/App/config_server_app.c:159-181 | the calibration reply is sent iff a sensor-fusion or e-compass mask comes with CAL_STATUS, and it carries 100 or 0; recalibration happens iff such a mask comes with CAL_RESET |
| ConfigCommands.ParseCommand | Projects/P-NUCLEO-WB55.Nucleo/Applications/MOTENV1/STM32_WPAN/App/config_server_app.c:150-296 | the parser always returns 1; a reply sends the calibration status; a switch enables or disables the feature and echoes the command; anything else changes nothing and sends nothing |
| MotionExt.FeatureCodes | Projects/P-NUCLEO-WB55.Nucleo/Applications/MOTENV1/STM32_WPAN/App/motion_ext_server_app.h:35-63 | each feature is a single bit, and a code names a feature iff it is that feature's bit |
| MotionExt.BitsDistinct | Projects/P-NUCLEO-WB55.Nucleo/Applications/MOTENV1/STM32_WPAN/App/motion_ext_server_app.h:35-63 | feature bits are non-zero and pairwise disjoint |
| MotionExt.NoBitOutsideByte | Projects/P-NUCLEO-WB55.Nucleo/Applications/MOTENV1/STM32_WPAN/App/motion_ext_server_app.h:35-63 | a status with no bit set in its low byte has no feature set |
| MotionExt.OnBit | Projects/P-NUCLEO-WB55.Nucleo/Applications/MOTENV1/STM32_WPAN/App/motion_ext_server_app.c:32 | after ON(f), feature g is set iff g is f or was set |
| MotionExt.OffBit | Projects/P-NUCLEO-WB55.Nucleo/Applications/MOTENV1/STM32_WPAN/App/motion_ext_server_app.c:33 | after OFF(f), feature g is set iff g is not f and was set |
| MotionExt.OtherBitsKept | Projects/P-NUCLEO-WB55.Nucleo/Applications/MOTENV1/STM32_WPAN/App/motion_ext_server_app.c:31-33 | ON and OFF leave every bit outside f's unchanged |
| MotionExt.OnOffExact | Projects/P-NUCLEO-WB55.Nucleo/Applications/MOTENV1/STM32_WPAN/App/motion_ext_server_app.c:31-33 | ON and OFF change exactly the one bit |
| MotionExt.DisableStep | Projects/P-NUCLEO-WB55.Nucleo/Applications/MOTENV1/STM32_WPAN/App/motion_ext_server_app.c:385-403 | a conditional disable clears f only if it was set and the sensor call succeeds; other features are kept |
| MotionExt.EnableStep | Projects/P-NUCLEO-WB55.Nucleo/Applications/MOTENV1/STM32_WPAN/App/motion_ext_server_app.c:365-378 | an enable sets f iff it was set or the sensor call succeeds; other features are kept |
| MotionExt.DisableAllEffect | Projects/P-NUCLEO-WB55.Nucleo/Applications/MOTENV1/STM32_WPAN/App/motion_ext_server_app.c:736-774 | disabling everything leaves MULTIPLE_EVENTS alone and clears each other set feature whose disable succeeds |
| MotionExt.EnableAllEffect | Projects/P-NUCLEO-WB55.Nucleo/Applications/MOTENV1/STM32_WPAN/App/motion_ext_server_app.c:716-728 | enabling everything never touches wake-up or MULTIPLE_EVENTS and sets each other feature whose enable succeeds |
| MotionExt.Orientation6DDecoding | Projects/P-NUCLEO-WB55.Nucleo/Applications/MOTENV1/STM32_WPAN/App/motion_ext_server_app.c:781-866 | the six one-hot patterns decode to distinct codes in 1..6, and any pattern that does not decode to 0 is one-hot |
| MotionExt.OrientationCodeRange | Projects/P-NUCLEO-WB55.Nucleo/Applications/MOTENV1/STM32_WPAN/App/motion_ext_server_app.c:781-866 | every orientation code is at most 6 |
| MotionExt.AccEventPacketFields | Projects/P-NUCLEO-WB55.Nucleo/Applications/MOTENV1/STM32_WPAN/App/motion_ext_server_app.c:874-916 | the 4-byte packet is tick/8 then the command, and the 5-byte packet is tick/8, a zero byte, then the command |
| MotionExt.ReportUpdatesAppend | Projects/P-NUCLEO-WB55.Nucleo/Applications/MOTENV1/STM32_WPAN/App/motion_ext_server_app.c:270-355 | reporting one more event appends exactly its notification |
| MotionExt.ReportUpdatesSilent | Projects/P-NUCLEO-WB55.Nucleo/Applications/MOTENV1/STM32_WPAN/App/motion_ext_server_app.c:874-880 | with notifications off no report sends anything |
| MotionExt.SiftAppend | Projects/P-NUCLEO-WB55.Nucleo/Applications/MOTENV1/STM32_WPAN/App/motion_ext_server_app.c:270-355 | an event that fires is reported after those before it; one that does not fire adds nothing |
| MotionExt.SiftMembers | Projects/P-NUCLEO-WB55.Nucleo/Applications/MOTENV1/STM32_WPAN/App/motion_ext_server_app.c:270-355 | an event is reported iff some candidate carrying it fires |
| MotionExt.SiftUpdates | Projects/P-NUCLEO-WB55.Nucleo/Applications/MOTENV1/STM32_WPAN/App/motion_ext_server_app.c:270-355 | sending candidate by candidate sends exactly the reports, in order |
| MotionExt.CandidatesUpdates8 | Projects/P-NUCLEO-WB55.Nucleo/Applications/MOTENV1/STM32_WPAN/App/motion_ext_server_app.c:270-355 | the notifications of the eight candidate events are sent one after the other |
| MotionExt.ItLogIsReports | Projects/P-NUCLEO-WB55.Nucleo/Applications/MOTENV1/STM32_WPAN/App/motion_ext_server_app.c:270-355 | the handler's notification sequence is that of the reports |
| MotionExt.CandidateIndex | Projects/P-NUCLEO-WB55.Nucleo/Applications/MOTENV1/STM32_WPAN/App/motion_ext_server_app.c:270-355 | each kind of event holds exactly one place among the candidates |
| MotionExt.SentIffFires | Projects/P-NUCLEO-WB55.Nucleo/Applications/MOTENV1/STM32_WPAN/App/motion_ext_server_app.c:270-355 | an event held by one candidate is reported iff that candidate fires |
| MotionExt.ReportsContents | Projects/P-NUCLEO-WB55.Nucleo/Applications/MOTENV1/STM32_WPAN/App/motion_ext_server_app.c:270-355 | each event is reported iff it fired, and the multi-event step count comes last |
| MotionExt.SiftNone | Projects/P-NUCLEO-WB55.Nucleo/Applications/MOTENV1/STM32_WPAN/App/motion_ext_server_app.c:270-355 | when nothing fires nothing is reported |
| MotionExt.ItGating | Projects/P-NUCLEO-WB55.Nucleo/Applications/MOTENV1/STM32_WPAN/App/motion_ext_server_app.c:270-355 | with MULTIPLE_EVENTS set, free fall, tap, double tap and tilt are reported iff their status is raised, wake-up iff its own bit is also set, and the step count comes last; with no bit set in the low byte nothing is reported |
| MotionExt.EnableSingleOutcome | Projects/P-NUCLEO-WB55.Nucleo/Applications/MOTENV1/STM32_WPAN/App/motion_ext_server_app.c:156-198 | enabling a single feature first tears down multi-event mode if it was on; f ends up set iff its enable succeeds or it was set and survived the teardown; other features are kept when multi-event mode was off; the MULTIPLE_EVENTS bit never changes |
| MotionExt.EnableSingleState | Projects/P-NUCLEO-WB55.Nucleo/Applications/MOTENV1/STM32_WPAN/App/motion_ext_server_app.c:156-198 | enabling a single feature is the multi-event teardown followed by that feature's enable |
| MotionExt.EnableMultiOutcome | Projects/P-NUCLEO-WB55.Nucleo/Applications/MOTENV1/STM32_WPAN/App/motion_ext_server_app.c:686-698 | enabling multi-event mode sets its bit and flag and zeroes the step count; each other feature except wake-up ends up set iff its enable succeeds or it was set and its disable failed |
| MotionExt.EnableMultiState | Projects/P-NUCLEO-WB55.Nucleo/Applications/MOTENV1/STM32_WPAN/App/motion_ext_server_app.c:156-198 | enabling MULTIPLE_EVENTS runs the teardown when needed, then Enable_MultiEvent |
| MotionExt.MultiOnBits | Projects/P-NUCLEO-WB55.Nucleo/Applications/MOTENV1/STM32_WPAN/App/motion_ext_server_app.c:686-698 | the feature bits after a disable-all, then an enable-all, then ON(MULTIPLE_EVENTS) |
| MotionExt.DisableOutcome | Projects/P-NUCLEO-WB55.Nucleo/Applications/MOTENV1/STM32_WPAN/App/motion_ext_server_app.c:205-241 | disabling a single feature clears it iff the disable succeeds and keeps the rest; disabling MULTIPLE_EVENTS clears its bit and flag and every feature whose disable succeeds |
| MotionExt.DisableSingleOutcome | Projects/P-NUCLEO-WB55.Nucleo/Applications/MOTENV1/STM32_WPAN/App/motion_ext_server_app.c:205-241 | disabling a single feature changes only that feature, and only when its disable succeeds |
| MotionExt.DisableMultiOutcome | Projects/P-NUCLEO-WB55.Nucleo/Applications/MOTENV1/STM32_WPAN/App/motion_ext_server_app.c:705-709 | disabling multi-event mode clears its bit and flag, and each feature whose disable succeeds |
| MotionExt.DisableState | Projects/P-NUCLEO-WB55.Nucleo/Applications/MOTENV1/STM32_WPAN/App/motion_ext_server_app.c:205-241 | disabling a feature is Disable_MultiEvent for MULTIPLE_EVENTS and a single conditional OFF otherwise |
| MotionExt.MultiOffBits | Projects/P-NUCLEO-WB55.Nucleo/Applications/MOTENV1/STM32_WPAN/App/motion_ext_server_app.c:705-709 | the feature bits after a disable-all followed by OFF(MULTIPLE_EVENTS) |
| MotionExt.MotionExtServer.constructor | Projects/P-NUCLEO-WB55.Nucleo/Applications/MOTENV1/STM32_WPAN/App/motion_ext_server_app.c:76 | the context starts zeroed |
| MotionExt.MotionExtServer.EnableHw | Projects/P-NUCLEO-WB55.Nucleo/Applications/MOTENV1/STM32_WPAN/App/motion_ext_server_app.c:365-378 | `Enable_X` sets X's bit iff the sensor call succeeds, and changes nothing else |
| MotionExt.MotionExtServer.DisableHw | Projects/P-NUCLEO-WB55.Nucleo/Applications/MOTENV1/STM32_WPAN/App/motion_ext_server_app.c:385-403 | `Disable_X` clears X's bit iff the sensor call succeeds, and changes nothing else |
| MotionExt.MotionExtServer.DisableIfEnabled | Projects/P-NUCLEO-WB55.Nucleo/Applications/MOTENV1/STM32_WPAN/App/motion_ext_server_app.c:736-774 | one step of DisableExtFeatures: disable X only when its bit is set |
| MotionExt.MotionExtServer.DisableExtFeatures | Projects/P-NUCLEO-WB55.Nucleo/Applications/MOTENV1/STM32_WPAN/App/motion_ext_server_app.c:736-774 | the bits become AfterDisableAll of the old ones and the multi-event flag becomes 0 |
| MotionExt.MotionExtServer.EnableExtFeatures | Projects/P-NUCLEO-WB55.Nucleo/Applications/MOTENV1/STM32_WPAN/App/motion_ext_server_app.c:716-728 | the bits become AfterEnableAll of the old ones and the multi-event flag becomes 1 |
| MotionExt.MotionExtServer.AccEventNotify | Projects/P-NUCLEO-WB55.Nucleo/Applications/MOTENV1/STM32_WPAN/App/motion_ext_server_app.c:874-916 | the event packet is sent iff notifications are on |
| MotionExt.MotionExtServer.EnableMultiEvent | Projects/P-NUCLEO-WB55.Nucleo/Applications/MOTENV1/STM32_WPAN/App/motion_ext_server_app.c:686-698 | the bits become disable-all, then enable-all, then ON(MULTIPLE_EVENTS); the step count is zeroed, and a step count of 0 is notified when notifications are on |
| MotionExt.MotionExtServer.DisableMultiEvent | Projects/P-NUCLEO-WB55.Nucleo/Applications/MOTENV1/STM32_WPAN/App/motion_ext_server_app.c:705-709 | disable-all, then OFF(MULTIPLE_EVENTS) unconditionally |
| MotionExt.MotionExtServer.EnableFeature | Projects/P-NUCLEO-WB55.Nucleo/Applications/MOTENV1/STM32_WPAN/App/motion_ext_server_app.c:156-198 | the new state and the notifications sent are `EnableFeatureEffect` and `EnableFeatureSent` of the old state, whose meaning EnableSingleOutcome and EnableMultiOutcome state |
| MotionExt.MotionExtServer.DisableFeature | Projects/P-NUCLEO-WB55.Nucleo/Applications/MOTENV1/STM32_WPAN/App/motion_ext_server_app.c:205-241 | the new state is `DisableFeatureEffect` of the old state, whose meaning DisableOutcome states |
| MotionExt.MotionExtServer.SetNotificationStatus | Projects/P-NUCLEO-WB55.Nucleo/Applications/MOTENV1/STM32_WPAN/App/motion_ext_server_app.c:137-149 | the status is stored; 1 enables multi-event mode and notifies a step count of 0; 0 disables it and sends nothing; any other value changes nothing else |
| MotionExt.MotionExtServer.ContextInit | Projects/P-NUCLEO-WB55.Nucleo/Applications/MOTENV1/STM32_WPAN/App/motion_ext_server_app.c:113-130 | init clears the status and the flag, and tears down multi-event mode |
| MotionExt.MotionExtServer.ReadCB | Projects/P-NUCLEO-WB55.Nucleo/Applications/MOTENV1/STM32_WPAN/App/motion_ext_server_app.c:248-257 | a read notifies the sensor's step count when the pedometer bit is set and 0 otherwise, provided notifications are on |
| MotionExt.MotionExtServer.NotifyIf | Projects/P-NUCLEO-WB55.Nucleo/Applications/MOTENV1/STM32_WPAN/App/motion_ext_server_app.c:270-355 | one event is notified iff it fires |
| MotionExt.MotionExtServer.HandleIT | Projects/P-NUCLEO-WB55.Nucleo/Applications/MOTENV1/STM32_WPAN/App/motion_ext_server_app.c:264-356 | a failed status read changes nothing; otherwise the step count takes the reading iff the pedometer or multi-event bit is set and a step was detected, and the notifications of the reports are sent in order; the feature bits, flag and status never change |
| ConsoleServer.ChunksShape | Projects/P-NUCLEO-WB55.Nucleo/Applications/MOTENV1/STM32_WPAN/App/console_server_app.c:103-117 | while every offset so far is inside the data, piece i starts at offset i and holds 1 to 20 bytes |
| ConsoleServer.StepsExact | Projects/P-NUCLEO-WB55.Nucleo/Applications/MOTENV1/STM32_WPAN/App/console_server_app.c:103 | for lengths up to 252, or any length with a wide offset, the loop stops at the first offset reaching the length |
| ConsoleServer.WrappedOffsetBound | Projects/P-NUCLEO-WB55.Nucleo/Applications/MOTENV1/STM32_WPAN/App/console_server_app.c:97-103 | every 8-bit offset the loop reaches is a multiple of 4 and at most 252 |
| ConsoleServer.OffsetStep | Projects/P-NUCLEO-WB55.Nucleo/Applications/MOTENV1/STM32_WPAN/App/console_server_app.c:103 | the next offset is the previous one plus 20, modulo 256 |
| ConsoleServer.LongOutputNeverEnds | Projects/P-NUCLEO-WB55.Nucleo/Applications/MOTENV1/STM32_WPAN/App/console_server_app.c:103 | for lengths 253 to 255 no reachable offset ends the loop |
| ConsoleServer.WidePrefix | Projects/P-NUCLEO-WB55.Nucleo/Applications/MOTENV1/STM32_WPAN/App/console_server_app.c:103-117 | with a wide offset, the first k pieces concatenate to the first min(20k, n) bytes |
| ConsoleServer.WideOutputReassembles | Projects/P-NUCLEO-WB55.Nucleo/Applications/MOTENV1/STM32_WPAN/App/console_server_app.c:103-117 | with a wide offset the pieces concatenate exactly to the data |
| ConsoleServer.NoWrapBelow13 | Projects/P-NUCLEO-WB55.Nucleo/Applications/MOTENV1/STM32_WPAN/App/console_server_app.c:103 | the first 13 pieces are the same with an 8-bit and a wide offset |
| ConsoleServer.ShortOutputReassembles | Projects/P-NUCLEO-WB55.Nucleo/Applications/MOTENV1/STM32_WPAN/App/console_server_app.c:103-117 | up to 240 bytes, ceil(n/20) pieces of 1 to 20 bytes concatenate exactly to the data |
| ConsoleServer.WrapResends | Projects/P-NUCLEO-WB55.Nucleo/Applications/MOTENV1/STM32_WPAN/App/console_server_app.c:97-117 | from 241 to 252 bytes the offset wraps: piece 13 resends bytes 4..24, and more bytes are sent than the data holds |
| ConsoleServer.FirstLapCoversText | Projects/P-NUCLEO-WB55.Nucleo/Applications/MOTENV1/STM32_WPAN/App/console_server_app.c:103-117 | from 241 to 252 bytes the first 13 pieces still carry the whole data |
| ConsoleServer.LastChunkKept | Projects/P-NUCLEO-WB55.Nucleo/Applications/MOTENV1/STM32_WPAN/App/console_server_app.c:109-110 | after a non-empty update the kept buffer starts with the last piece sent, of 1 to 20 bytes |
| ConsoleServer.ConsoleContext.constructor | Projects/P-NUCLEO-WB55.Nucleo/Applications/MOTENV1/STM32_WPAN/App/console_server_app.c:34-42 | the context starts zeroed |
| ConsoleServer.ConsoleContext.ContextInit | Projects/P-NUCLEO-WB55.Nucleo/Applications/MOTENV1/STM32_WPAN/App/console_server_app.c:63-67 | init zeroes both statuses and keeps the last buffer and length |
| ConsoleServer.ConsoleContext.SetTermNotificationStatus | Projects/P-NUCLEO-WB55.Nucleo/Applications/MOTENV1/STM32_WPAN/App/console_server_app.c:74-78 | only the term status changes |
| ConsoleServer.ConsoleContext.SetStderrNotificationStatus | Projects/P-NUCLEO-WB55.Nucleo/Applications/MOTENV1/STM32_WPAN/App/console_server_app.c:84-87 | only the stderr status changes |
| ConsoleServer.ConsoleContext.KeepChunk | Projects/P-NUCLEO-WB55.Nucleo/Applications/MOTENV1/STM32_WPAN/App/console_server_app.c:109 | the piece overwrites the front of the kept buffer |
| ConsoleServer.ConsoleContext.SendPiece | Projects/P-NUCLEO-WB55.Nucleo/Applications/MOTENV1/STM32_WPAN/App/console_server_app.c:105-116 | one loop body: the piece is kept, its length is stored, and it is sent |
| ConsoleServer.ConsoleContext.SendChunks | Projects/P-NUCLEO-WB55.Nucleo/Applications/MOTENV1/STM32_WPAN/App/console_server_app.c:103-119 | the loop sends the pieces in order and leaves the buffer and length the pieces imply |
| ConsoleServer.ConsoleContext.TermUpdate | Projects/P-NUCLEO-WB55.Nucleo/Applications/MOTENV1/STM32_WPAN/App/console_server_app.c:95-123 | with the term status off nothing changes; otherwise the pieces go to the term characteristic and the last one is kept |
| ConsoleServer.ConsoleContext.StderrUpdate | Projects/P-NUCLEO-WB55.Nucleo/Applications/MOTENV1/STM32_WPAN/App/console_server_app.c:150-178 | as TermUpdate under the stderr status, to the stderr characteristic, in the same kept buffer |
| ConsoleServer.ConsoleContext.TermAfterRead | Projects/P-NUCLEO-WB55.Nucleo/Applications/MOTENV1/STM32_WPAN/App/console_server_app.c:130-142 | with the term status on, the kept piece (its first `lastTermLen` bytes) is resent on the term characteristic; otherwise nothing is sent |
| ConsoleServer.ConsoleContext.StderrAfterRead | Projects/P-NUCLEO-WB55.Nucleo/Applications/MOTENV1/STM32_WPAN/App/console_server_app.c:185-197 | with the stderr status on, the kept piece is resent, on the term characteristic rather than the stderr one; otherwise nothing is sent |
| EnvServer.EnvAdvFlags | Projects/P-NUCLEO-WB55.Nucleo/Applications/MOTENV1/STM32_WPAN/App/env_server_app.c:283-300 | the pressure, humidity and first temperature bits end up set iff they were set or the capability is present, the second temperature bit iff it was set or there are two temperatures; no other bit changes and no bit is cleared |
| EnvServer.AnyStep | Projects/P-NUCLEO-WB55.Nucleo/Applications/MOTENV1/STM32_WPAN/App/env_server_app.c:265-280 | one more instance adds its pressure, humidity and temperature capabilities |
| EnvServer.SensorsAfter | Projects/P-NUCLEO-WB55.Nucleo/Applications/MOTENV1/STM32_WPAN/App/env_server_app.c:197-247 | the temperature index advances by the number of temperatures read, within the slots |
| EnvServer.TemperaturesRead | Projects/P-NUCLEO-WB55.Nucleo/Applications/MOTENV1/STM32_WPAN/App/env_server_app.c:238-246 | one temperature per successful read |
| EnvServer.LastReadingWins | Projects/P-NUCLEO-WB55.Nucleo/Applications/MOTENV1/STM32_WPAN/App/env_server_app.c:221-236 | the stored pressure and humidity are those of the last successful read, or unchanged without one |
| EnvServer.NfcPressureStored | Projects/P-NUCLEO-WB55.Nucleo/Applications/MOTENV1/STM32_WPAN/App/env_server_app.c:201-219 | on the NFC path the parsed pressure is stored as int*100 + dec |
| EnvServer.InstanceStepTemps | Projects/P-NUCLEO-WB55.Nucleo/Applications/MOTENV1/STM32_WPAN/App/env_server_app.c:238-246 | a successful temperature read fills the next slot and advances the index; otherwise nothing changes |
| EnvServer.TemperaturesInOrder | Projects/P-NUCLEO-WB55.Nucleo/Applications/MOTENV1/STM32_WPAN/App/env_server_app.c:197-247 | the temperatures read fill the slots in order from the index, and the other slots are kept |
| EnvServer.TemperatureReadsPrefix | Projects/P-NUCLEO-WB55.Nucleo/Applications/MOTENV1/STM32_WPAN/App/env_server_app.c:238-246 | the temperatures read so far never exceed those of the whole pass |
| EnvServer.SpaceRun | Projects/P-NUCLEO-WB55.Nucleo/Applications/MOTENV1/STM32_WPAN/App/env_server_app.c:207 | the whitespace `atoi` skips is inside the string |
| EnvServer.NfcPressureIdempotent | Projects/P-NUCLEO-WB55.Nucleo/Applications/MOTENV1/STM32_WPAN/App/env_server_app.c:203-216 | parsing the NFC text again gives the same value and leaves the buffer as it is |
| EnvServer.Digits1 | Projects/P-NUCLEO-WB55.Nucleo/Applications/MOTENV1/STM32_WPAN/App/env_server_app.c:208 | `atoi` of one digit is that digit |
| EnvServer.Digits2 | Projects/P-NUCLEO-WB55.Nucleo/Applications/MOTENV1/STM32_WPAN/App/env_server_app.c:215 | `atoi` of two digits is their decimal value |
| EnvServer.Digits3 | Projects/P-NUCLEO-WB55.Nucleo/Applications/MOTENV1/STM32_WPAN/App/env_server_app.c:207 | `atoi` of three digits is their decimal value |
| EnvServer.Digits4 | Projects/P-NUCLEO-WB55.Nucleo/Applications/MOTENV1/STM32_WPAN/App/env_server_app.c:214 | `atoi` of four digits is their decimal value |
| EnvServer.AtoiDigits | Projects/P-NUCLEO-WB55.Nucleo/Applications/MOTENV1/STM32_WPAN/App/env_server_app.c:207-215 | `atoi` of text that starts with a digit is its digit run |
| EnvServer.NfcPressureOneDecimal | Projects/P-NUCLEO-WB55.Nucleo/Applications/MOTENV1/STM32_WPAN/App/env_server_app.c:203-219 | as written, the stored pressure is 100*int plus only the first decimal digit |
| EnvServer.NfcDropsSecondDecimal | Projects/P-NUCLEO-WB55.Nucleo/Applications/MOTENV1/STM32_WPAN/App/env_server_app.c:206 | "990.25" is stored as 99002 rather than 99025 |
| EnvServer.NfcPressureTwoDecimalsValue | Projects/P-NUCLEO-WB55.Nucleo/Applications/MOTENV1/STM32_WPAN/App/env_server_app.c:203-219 | the corrected parse stores 100*int plus both decimal digits |
| EnvServer.TemperatureBytes | Projects/P-NUCLEO-WB55.Nucleo/Applications/MOTENV1/STM32_WPAN/App/env_server_app.c:169-173 | two bytes per temperature |
| EnvServer.PressureField | Projects/P-NUCLEO-WB55.Nucleo/Applications/MOTENV1/STM32_WPAN/App/env_server_app.c:157-161 | four pressure bytes iff hasPressure is 1 |
| EnvServer.HumidityField | Projects/P-NUCLEO-WB55.Nucleo/Applications/MOTENV1/STM32_WPAN/App/env_server_app.c:163-167 | two humidity bytes iff hasHumidity is 1 |
| EnvServer.FixedFields | Projects/P-NUCLEO-WB55.Nucleo/Applications/MOTENV1/STM32_WPAN/App/env_server_app.c:155-167 | the tick followed by the optional fields |
| EnvServer.EnvFields | Projects/P-NUCLEO-WB55.Nucleo/Applications/MOTENV1/STM32_WPAN/App/env_server_app.c:154-173 | BuffPos ends at 2 + 4·hasPressure + 2·hasHumidity + 2·hasTemperature |
| EnvServer.TemperatureBytesAt | Projects/P-NUCLEO-WB55.Nucleo/Applications/MOTENV1/STM32_WPAN/App/env_server_app.c:169-173 | temperature j sits at bytes 2j..2j+2 |
| EnvServer.PacketTick | Projects/P-NUCLEO-WB55.Nucleo/Applications/MOTENV1/STM32_WPAN/App/env_server_app.c:155 | the packet starts with tick/8 |
| EnvServer.PacketPressure | Projects/P-NUCLEO-WB55.Nucleo/Applications/MOTENV1/STM32_WPAN/App/env_server_app.c:157-161 | with pressure, bytes 2..6 read back as the pressure |
| EnvServer.PacketHumidity | Projects/P-NUCLEO-WB55.Nucleo/Applications/MOTENV1/STM32_WPAN/App/env_server_app.c:163-167 | with humidity, the two bytes after the pressure read back as the humidity |
| EnvServer.PacketTemperature | Projects/P-NUCLEO-WB55.Nucleo/Applications/MOTENV1/STM32_WPAN/App/env_server_app.c:169-173 | temperature j reads back from its two bytes after the fixed fields |
| EnvServer.EnvPacketFields | Projects/P-NUCLEO-WB55.Nucleo/Applications/MOTENV1/STM32_WPAN/App/env_server_app.c:145-178 | the packet is always 12 bytes: each field present reads back as its value, and the bytes after the last field are the stack's |
| EnvServer.EnvContext.constructor | Projects/P-NUCLEO-WB55.Nucleo/Applications/MOTENV1/STM32_WPAN/App/env_server_app.c:63 | the context starts zeroed |
| EnvServer.EnvContext.SetNotificationStatus | Projects/P-NUCLEO-WB55.Nucleo/Applications/MOTENV1/STM32_WPAN/App/env_server_app.c:102-105 | only the status changes |
| EnvServer.EnvContext.GetCaps | Projects/P-NUCLEO-WB55.Nucleo/Applications/MOTENV1/STM32_WPAN/App/env_server_app.c:255-303 | the demo only adds pressure; otherwise each flag is set if any instance has the capability, hasTemperature counts them (modulo 256), and manuf_data[5] gets the capability bits |
| EnvServer.EnvContext.ScanCaps | Projects/P-NUCLEO-WB55.Nucleo/Applications/MOTENV1/STM32_WPAN/App/env_server_app.c:265-280 | the capability loop sets each flag if any instance has it, and counts temperatures |
| EnvServer.EnvContext.OrEnvFlags | Projects/P-NUCLEO-WB55.Nucleo/Applications/MOTENV1/STM32_WPAN/App/env_server_app.c:283-300 | the ORs produce `EnvAdvByte` |
| EnvServer.EnvContext.AdvertiseEnv | Projects/P-NUCLEO-WB55.Nucleo/Applications/MOTENV1/STM32_WPAN/App/env_server_app.c:283-300 | only manuf_data[5] changes |
| EnvServer.EnvContext.ContextInit | Projects/P-NUCLEO-WB55.Nucleo/Applications/MOTENV1/STM32_WPAN/App/env_server_app.c:81-95 | the flags and status are cleared, then the capabilities are probed |
| EnvServer.EnvContext.ParseNfcPressure | Projects/P-NUCLEO-WB55.Nucleo/Applications/MOTENV1/STM32_WPAN/App/env_server_app.c:203-216 | the in-place parse returns the parts and terminates the buffer as `NfcPressure` says |
| EnvServer.EnvContext.ReadPressure | Projects/P-NUCLEO-WB55.Nucleo/Applications/MOTENV1/STM32_WPAN/App/env_server_app.c:199-227 | one pressure step, from the NFC text or the sensor |
| EnvServer.EnvContext.HandleInstance | Projects/P-NUCLEO-WB55.Nucleo/Applications/MOTENV1/STM32_WPAN/App/env_server_app.c:197-247 | one pass of the sensor loop is `InstanceStep` |
| EnvServer.EnvContext.HandleSensor | Projects/P-NUCLEO-WB55.Nucleo/Applications/MOTENV1/STM32_WPAN/App/env_server_app.c:190-248 | the loop's values are `HandledValues` of the readings |
| EnvServer.EnvContext.EnvUpdate | Projects/P-NUCLEO-WB55.Nucleo/Applications/MOTENV1/STM32_WPAN/App/env_server_app.c:145-178 | the sensors are read and exactly one packet of the new values is sent |
| EnvServer.EnvContext.PackEnv | Projects/P-NUCLEO-WB55.Nucleo/Applications/MOTENV1/STM32_WPAN/App/env_server_app.c:150-173 | the packed array is `EnvPacket` |
| EnvServer.EnvContext.PackFixed | Projects/P-NUCLEO-WB55.Nucleo/Applications/MOTENV1/STM32_WPAN/App/env_server_app.c:155-167 | the fixed fields are written and BuffPos is their length |
| EnvServer.EnvContext.PackTemperatures | Projects/P-NUCLEO-WB55.Nucleo/Applications/MOTENV1/STM32_WPAN/App/env_server_app.c:169-173 | the temperature loop appends one LE16 per temperature |
| EnvServer.EnvContext.StoreNext | Projects/P-NUCLEO-WB55.Nucleo/Applications/MOTENV1/STM32_WPAN/App/env_server_app.c:159-160 | one store plus the BuffPos increment |
| EnvServer.EnvContext.SendNotificationTask | Projects/P-NUCLEO-WB55.Nucleo/Applications/MOTENV1/STM32_WPAN/App/env_server_app.c:112-138 | on the first connection the two calibration replies are sent and the flag is cleared; with notifications on, the sensors are read and the packet is sent, otherwise nothing else happens |
| MotionServer.MotionAdvFlags | Projects/P-NUCLEO-WB55.Nucleo/Applications/MOTENV1/STM32_WPAN/App/motion_server_app.c:249-261 | each capability bit of manuf_data[5] and [6] ends up set iff it was set or the capability is present; no other bit changes |
| MotionServer.AnyReportsStep | Projects/P-NUCLEO-WB55.Nucleo/Applications/MOTENV1/STM32_WPAN/App/motion_server_app.c:231-246 | one more instance adds its capabilities |
| MotionServer.LastReadWins | Projects/P-NUCLEO-WB55.Nucleo/Applications/MOTENV1/STM32_WPAN/App/motion_server_app.c:187-220 | each stored triple is the last successful read when its flag is 1, and unchanged otherwise |
| MotionServer.Div100IsCDivision | Projects/P-NUCLEO-WB55.Nucleo/Applications/MOTENV1/STM32_WPAN/App/motion_server_app.c:142-144 | the division truncates toward zero, as C does |
| MotionServer.GyroScaling | Projects/P-NUCLEO-WB55.Nucleo/Applications/MOTENV1/STM32_WPAN/App/motion_server_app.c:140-149 | after a send the gyroscope triple is the last read divided by 100, or the stale one divided again |
| MotionServer.StaleGyroDecays | Projects/P-NUCLEO-WB55.Nucleo/Applications/MOTENV1/STM32_WPAN/App/motion_server_app.c:142-144 | for every triple and every k, after k sends with no new reading each axis has absolute value (its absolute value before) / 100^k, rounded down, with its sign kept; after five sends every int32 triple is 0 |
| MotionServer.AxesBytes | Projects/P-NUCLEO-WB55.Nucleo/Applications/MOTENV1/STM32_WPAN/App/motion_server_app.c:135-137 | three axes take six bytes |
| MotionServer.AxesBytesRoundTrip | Projects/P-NUCLEO-WB55.Nucleo/Applications/MOTENV1/STM32_WPAN/App/motion_server_app.c:135-137 | the six bytes read back as the three 16-bit axes |
| MotionServer.MotionPacketFields | Projects/P-NUCLEO-WB55.Nucleo/Applications/MOTENV1/STM32_WPAN/App/motion_server_app.c:121-160 | the packet is always 20 bytes: tick/8, then the acc, gyro and mag sections each present iff their flag is 1 (mag minus the offset), otherwise the stack's bytes |
| MotionServer.MotionContext.constructor | Projects/P-NUCLEO-WB55.Nucleo/Applications/MOTENV1/STM32_WPAN/App/motion_server_app.c:59 | the context starts zeroed |
| MotionServer.MotionContext.SetNotificationStatus | Projects/P-NUCLEO-WB55.Nucleo/Applications/MOTENV1/STM32_WPAN/App/motion_server_app.c:111-114 | only the status changes |
| MotionServer.MotionContext.GetCaps | Projects/P-NUCLEO-WB55.Nucleo/Applications/MOTENV1/STM32_WPAN/App/motion_server_app.c:227-262 | each flag is set if any instance reports it, and manuf_data[5] and [6] get the matching bits |
| MotionServer.MotionContext.OrMotionFlags | Projects/P-NUCLEO-WB55.Nucleo/Applications/MOTENV1/STM32_WPAN/App/motion_server_app.c:249-261 | the ORs produce the advertised bytes |
| MotionServer.MotionContext.ContextInit | Projects/P-NUCLEO-WB55.Nucleo/Applications/MOTENV1/STM32_WPAN/App/motion_server_app.c:77-93 | the flags and status are cleared, then the capabilities are probed |
| MotionServer.MotionContext.HandleSensor | Projects/P-NUCLEO-WB55.Nucleo/Applications/MOTENV1/STM32_WPAN/App/motion_server_app.c:187-220 | the loop's values are `ReadAll` of the readings |
| MotionServer.MotionContext.SendNotificationTask | Projects/P-NUCLEO-WB55.Nucleo/Applications/MOTENV1/STM32_WPAN/App/motion_server_app.c:121-178 | the sensors are read, the gyroscope is divided by 100, and the packet is sent iff notifications are on |
| MotionServer.MotionContext.PackMotion | Projects/P-NUCLEO-WB55.Nucleo/Applications/MOTENV1/STM32_WPAN/App/motion_server_app.c:129-160 | the packed array is `MotionPacket` |
| MotionServer.MotionContext.StoreSection | Projects/P-NUCLEO-WB55.Nucleo/Applications/MOTENV1/STM32_WPAN/App/motion_server_app.c:133-160 | a present section is written over its six bytes and the rest is kept |

## Left out

- The NDEF codec is not part of this model: `ndef_record.c`, `ndef_message.c` and the typed transcoders. Matching, the append flags and the wire layout are modelled only as far as the tests assert them.
- The Device Information transcoder of `ndefTest_rtd_type_deviceinfo_3` is not modelled, since its implementation is not part of this model either.
- `ndefRecordGetPayloadLength` is taken as the cached typed value's length when one exists, and the payload view's length otherwise.
- A record's type and id views are taken to hold exactly typeLength and idLength bytes.
- NdefRecord.EmptyRecord is taken to be the record `ndefRecordReset` produces: an SR-only header with TNF empty, no type, id or payload. `ndefRecordReset` itself is not modelled, since `ndef_record.c` is not part of this model.
- NdefRecord.Encode writes the payload view only. The payload that a cached typed value would produce is not modelled, because the typed transcoders are not part of this model (`ndefTypeToRecord`, `ndefRtdDeviceInfoToRecord`). `WireLength`, `EncodeInto` and the round trips therefore speak of untyped records (`WireConsistent` requires `ndeftype` to be absent). The records that the tests encode and decode back at 883-947 and 959-1040 of `ndef_unitary_tests.c` are untyped.
- NdefRecord.ConstBuffer ties the length to the pointer: a NULL view always has length 0. The C `ndefConstBuffer` keeps its buffer pointer and its length apart.
- Record decoding rejects nothing beyond truncation: no chunk, TNF or id checks.
- The record list of a message is a `seq`. The `next` pointer exists only in `RecordSlot`, where `RecordCopy` keeps it.
- NdefMessage.MessageMatch: the NULL messages that `ndefMessageGetRecordCount` would reject are not modelled. Both messages are present lists.
- NdefSystem.WrapMessage: requires payload length + 3 < 2^32; the wrap-around of that 32-bit sum is not modelled.
- NdefSystem.WrapMessage uses the TLV as written (`TlvWrap`). The corrected `TlvWrapLong` stands beside it and is proved correct.
- The tag I/O (`ndefPoller*`) around the AIB update and the write offset is not modelled. The AIB is an array given to `UpdateAib`, and CC[2] is a parameter of `WriteOffset`. A poller write is modelled only as an overwrite of the tag's memory image (`WriteAt`), with no errors and no block granularity.
- NdefSystem.WriteOffset is the plain case table of `ndefSystemTest_WriteMessage`. Only for T3T is a property beyond the values stated (`T3TMessageFollowsAib`). For T2T and T5T, what the skipped bytes hold (serial number, lock bytes, the capability container) would come from the tag reads, and those are I/O.
- `ndefDumpInfo`'s logging is left out. Only its result is modelled.
- The `FEATURE_MASK_*` and `W2ST_COMMAND_*` values are defined in `motenv_server_app.h`, which is not part of this model. The BlueST protocol's values are used, and the proofs rely only on their being distinct.
- ConfigCommands.ParseCommand requires at least six attribute bytes. The source reads bytes 0..5 without looking at `data_length`.
- `MOTIONFX_Get_MagCalStatus` is an input, and `MOTIONFX_ReCalibration` is an output flag of `ParseCommand`.
- Every sensor enable or disable call is an input (`Driver`): the set of features whose call succeeds. The ODR and threshold calls inside `Enable_X` and `Disable_X` are not modelled.
- `HAL_GetTick` is a `tick` parameter, and one tick is used for every packet of an operation.
- `HAL_Delay` is left out.
- The sensor status read, the step counter and the 6D source bits of `MOTION_EXT_Handle_IT` are parameters.
- ConsoleServer.ConsoleContext.SendChunks, TermUpdate and StderrUpdate require at most 252 bytes. For 253 to 255 bytes the source loop never ends (`LongOutputNeverEnds`), so no final state exists to state.
- The unused `ConsoleIsInitalized` field is left out.
- Sensor readings are given already split into integer and decimal parts (`Fixed`). The float-to-integer macros `MCR_BLUEMS_F2I_*` and the floats themselves are not modelled.
- Storing those parts into `int32_t`, `uint16_t` and `int16_t` wraps explicitly (`Int32Of`, `% 0x1_0000`, `Int16Of`).
- Sensor instance initialisation and full-scale settings (`MOTION_Set2G_Accelerometer_FullScale`) are not modelled.
- The NFC text buffer `string_buff` is an array given to the environmental server.
- The parse when neither index 11 nor 12 holds '.' reuses the previous parts. These are modelled as the `locals` carried between calls, which stand in for the uninitialised locals.
- The magnetometer offset of the motion server is a parameter (`magOffset`).
- The uninitialised `value[]` arrays of the packet builders start as a `stack` parameter.
- EnvServer.EnvContext.HandleSensor, EnvUpdate and SendNotificationTask require at most two temperatures read per pass and `hasTemperature <= 2`. Beyond that the source writes past `TemperatureValue[2]` and `value[12]`.
- EnvServer.EnvContext.ReadPressure and HandleSensor use the NFC parse as written (`NfcPressure`). The corrected `NfcPressureTwoDecimals` stands beside it and is proved correct.
- MotionServer.MotionContext.SendNotificationTask: the source divides the gyroscope triple by 100 between packing the acceleration and packing the gyroscope. The model divides before packing. No value is read in between, so the packet is the same.

## Findings

| source | as written | input that shows it | evidently intended | confidence | as-written member | corrected member |
|---|---|---|---|---|---|---|
| Middlewares/ST/ndef/test/ndef_system_tests.c:121 | `state > SIZEOF_ARRAY(ndefState)` lets state 4 through, and then `ndefState[4]` is read past the 4-entry table | `info->state == 4` | `>=`, rejecting every state outside the table | high, not executed | NdefSystem.DumpInfoOverrun | NdefSystem.DumpInfoBoundedSafe |
| Middlewares/ST/ndef/test/ndef_system_tests.c:380 | the TLV length byte is the payload length truncated to 8 bits | a 255-byte payload gives length byte 0xFF, the three-byte length marker, and a 300-byte payload gives 44 | the three-byte length form (0xFF, then 16 bits) for payloads of 255 bytes or more | high, not executed | NdefSystem.TlvWrapLosesLongMessages | NdefSystem.TlvWrapLongRoundTrip |
| Projects/P-NUCLEO-WB55.Nucleo/Applications/MOTENV1/STM32_WPAN/App/console_server_app.c:97-103 | the chunk offset is a `uint8_t`, so it wraps past 255 | 241 to 252 bytes: piece 13 resends bytes 4..24; 253 to 255 bytes: the loop never ends | an offset wide enough for the length, sending each byte once | high, not executed | ConsoleServer.LongOutputNeverEnds | ConsoleServer.WideOutputReassembles |
| Projects/P-NUCLEO-WB55.Nucleo/Applications/MOTENV1/STM32_WPAN/App/env_server_app.c:206 | NUL is written at index 13 (14), right after the first decimal digit, so only one decimal is parsed and `int*100 + dec` reads it as hundredths | "990.25" at index 8 is stored as 99002 | both decimal digits kept (NUL at 14 / 15), giving 99025 | medium, not executed | EnvServer.NfcDropsSecondDecimal | EnvServer.NfcPressureTwoDecimalsValue |
