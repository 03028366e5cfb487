# BQ35100 fuel-gauge protocol engine and LIS2DE12 configuration core, in Dafny

This project models two Zephyr sensor drivers and proves properties of the models.

**BQ35100 fuel gauge** (`drivers/fuel_gauge/bq35100/bq35100.c`). The driver talks to a
battery fuel gauge over I²C. It does four things:

- It runs the device's security-mode state machine (sealed, unsealed, full access).
- It reads and writes the device's data flash through the checksummed
  ManufacturerAccessControl (MAC) block protocol.
- It sends control commands and polls the status word.
- It turns raw register bytes into voltage, current, capacity and state of charge.

The model has three layers:

- **Reference functions** (`Bq35100Protocol`, `Bq35100PropertyEngine`). Each driver
  operation is a pure function over a `Bus` value. A `Bus` holds three things: the
  driver's security mode (the global `g_security_mode`), the transport's scripted
  replies that are still unused, and the trace of everything that went on the bus.
  The trace records frames written, register reads with their byte counts, and
  `k_sleep` calls.
- **Imperative driver** (`Bq35100Driver.Bq35100`). It is a class with a
  `securityMode` field, the remaining replies and a ghost trace. Its methods work
  on arrays the way the C code does, and each is proved to follow its reference
  function exactly.
- **Properties** (`Bq35100Lemmas`). These are proved about the reference functions.

The shared `BlockChecksum` module holds the checksum that seals every MAC block.
The `ByteOrder` module writes out C integer widths, byte orders and truncating
division.

**LIS2DE12 accelerometer** (`drivers/sensor/st/lis2de12/lis2de12.c`). The model covers
the following, in module `Lis2de12`:

- the output-data-rate and full-scale table lookups;
- the setters that record the configuration in the driver data;
- the integer die-temperature conversion;
- the channel dispatch of `sample_fetch` and `channel_get`.

The driver data is a class whose fields the setters update in place.

Where the code departs from what the protocol intends, the model follows the code:

- The current is decoded as an unsigned 16-bit value times 1000. A raw 0xFF9C (−100 mA)
  therefore reads as 65,436,000 µA, not −100,000 µA.
- A set write-failed bit (status bit 15) is not reported: the write returns 0.
- Status polling ends with 0 on the first successful status read, whatever the status
  says. It compares against a never-written status (0) only when reads fail. It gives
  up with −EINVAL rather than a timeout that carries the last status.
- The security-mode retry loop never runs a second round. The verifying read always
  reports success, and a mode that is not the target returns −EIO at once.
- A read or write on a sealed device returns the result of sealing it again, which
  replaces the transfer's own result.
- Reset returns 1 on success.

## Model

| member | source | states |
|---|---|---|
| BlockChecksum.ComputeChecksum | drivers/fuel_gauge/bq35100/bq35100.c:43-58 | A null buffer gives 0. Otherwise the result is 0xFF minus the byte sum modulo 256 of the `length` bytes at `from`, so those bytes plus the result sum to 0xFF modulo 256. |
| BlockChecksum.SumConcat | drivers/fuel_gauge/bq35100/bq35100.c:49-53 | The byte sum of a concatenation is the sum of the sums of its parts. |
| BlockChecksum.ChecksumSeals | drivers/fuel_gauge/bq35100/bq35100.c:196-199 | A block followed by its checksum byte sums to 0xFF modulo 256. |
| BlockChecksum.ChecksumAccepts | drivers/fuel_gauge/bq35100/bq35100.c:287-294 | A received checksum byte passes verification exactly when it equals the checksum the sender computes. |
| Bq35100Protocol.WaitForStatus | drivers/fuel_gauge/bq35100/bq35100.c:340-364 | Polling returns 0, 1 or −EINVAL, never changes the security mode, and only extends the trace. Its exact traffic is stated by WaitEndsOnSuccessfulRead and WaitGivesUp. |
| Bq35100Protocol.ReadExtended | drivers/fuel_gauge/bq35100/bq35100.c:237-315 | A data-flash read never delivers more than the caller's buffer length, and only extends the bus trace. |
| Bq35100Protocol.WriteTransfer | drivers/fuel_gauge/bq35100/bq35100.c:188-224 | The framed write leaves the security mode as it was and only extends the bus trace. |
| Bq35100Protocol.SetSecurityMode | drivers/fuel_gauge/bq35100/bq35100.c:405-535 | When the transition reports success, the driver's mode is the target. |
| Bq35100Protocol.Reset | drivers/fuel_gauge/bq35100/bq35100.c:626-645 | Reset returns 1 on success and −EINVAL on any failure, never 0. |
| Bq35100Protocol.Init | drivers/fuel_gauge/bq35100/bq35100.c:850-902 | Init returns 0 or −ENODEV. On success the security mode is a known one (sealed, unsealed or full access). |
| Bq35100PropertyEngine.CalculateRemainingCapacity | drivers/fuel_gauge/bq35100/bq35100.c:647-665 | For a non-negative design capacity whose µAh value fits int32, the remaining capacity lies in [0, design×1000]; the only caller passes a 16-bit unsigned design capacity, so this holds at every call. It equals design×1000 + accumulated when that is in range, 0 when it is negative, and design×1000 when the accumulated value is positive. |
| Bq35100PropertyEngine.StateOfCharge | drivers/fuel_gauge/bq35100/bq35100.c:705-711 | State of charge is in [0, 100] and is 0 for a non-positive design capacity. For a remaining capacity within the design, it is the floor of the percentage: soc·D ≤ 100·remaining < (soc+1)·D with D = design×1000. |
| Bq35100PropertyEngine.GetRegister | drivers/fuel_gauge/bq35100/bq35100.c:723-747 | The register is 0 exactly for the properties that have no data register (everything except voltage, current, design capacity, remaining capacity and state of charge). |
| Bq35100PropertyEngine.ProcessProp | drivers/fuel_gauge/bq35100/bq35100.c:667-721 | Exactly the five readable properties convert; any other gives −ENOTSUP. Voltage and current are the little-endian word ×1000 with no wrap-around. Remaining capacity lies in [0, design×1000] and state of charge in [0, 100]. |
| Bq35100PropertyEngine.ReadRegisters | drivers/fuel_gauge/bq35100/bq35100.c:749-782 | The register buffer always has 6 bytes, and the mode is left alone. A property without a register gives −ENOTSUP with nothing sent. Otherwise the first bus event reads the property's register: 2 bytes, or 4 for the accumulated capacity. A successful capacity read is exactly the 4-byte accumulated read followed by the 2-byte design read. |
| Bq35100PropertyEngine.GetProp | drivers/fuel_gauge/bq35100/bq35100.c:784-800 | A property read never changes the security mode and only extends the trace. Only a property with a data register can succeed; one without is refused with nothing sent. A successful state of charge is in [0, 100]. |
| Bq35100PropertyEngine.SetProp | drivers/fuel_gauge/bq35100/bq35100.c:802-833 | Every property write only extends the trace and never drops a known security mode back to unknown. |
| Bq35100Driver.Bq35100.constructor | drivers/fuel_gauge/bq35100/bq35100.c:37 | The driver starts in the unknown security mode with an empty trace. |
| Bq35100Driver.Bq35100.WriteFrame | drivers/fuel_gauge/bq35100/bq35100.c:60-73 | A raw write consumes one reply and records the frame. |
| Bq35100Driver.Bq35100.GetData | drivers/fuel_gauge/bq35100/bq35100.c:109-115 | A register read records the register and byte count and copies the delivered bytes into the destination array. |
| Bq35100Driver.Bq35100.SendData | drivers/fuel_gauge/bq35100/bq35100.c:99-107 | The frame on the bus is the register byte followed by the data bytes. |
| Bq35100Driver.Bq35100.SendCntl | drivers/fuel_gauge/bq35100/bq35100.c:117-124 | A control command goes out as the control register followed by the opcode, little-endian. |
| Bq35100Driver.Bq35100.GetCntl | drivers/fuel_gauge/bq35100/bq35100.c:126-156 | A control query writes the opcode, reads two bytes back and decodes them little-endian, as the reference function does. |
| Bq35100Driver.Bq35100.GetDeviceType | drivers/fuel_gauge/bq35100/bq35100.c:537-553 | The device type is the DEVICE_TYPE control query. |
| Bq35100Driver.Bq35100.GetStatus | drivers/fuel_gauge/bq35100/bq35100.c:317-338 | The status word is a two-byte little-endian read of the control/status register. |
| Bq35100Driver.Bq35100.WaitForStatus | drivers/fuel_gauge/bq35100/bq35100.c:340-364 | The polling loop produces the same result, reads and sleeps as the reference function. |
| Bq35100Driver.Bq35100.GetSecurityMode | drivers/fuel_gauge/bq35100/bq35100.c:366-403 | Always returns 0. The driver's mode becomes the one decoded from bits 13-14 of the second status read, or is kept when a read fails. |
| Bq35100Driver.Bq35100.SetSecurityMode | drivers/fuel_gauge/bq35100/bq35100.c:405-535 | The retry loop's result, bus traffic and new mode are those of the reference state machine. |
| Bq35100Driver.Bq35100.TransitionAttempt | drivers/fuel_gauge/bq35100/bq35100.c:423-518 | One round of the state machine: the bus sequence for the target mode. |
| Bq35100Driver.Bq35100.EnterFullAccess | drivers/fuel_gauge/bq35100/bq35100.c:436-475 | From sealed, unseal first; then read the key from data flash and send it. |
| Bq35100Driver.Bq35100.SendFullAccessKey | drivers/fuel_gauge/bq35100/bq35100.c:453-474 | The two three-byte key frames, built in the buffer the key was read into. |
| Bq35100Driver.Bq35100.EnterUnsealed | drivers/fuel_gauge/bq35100/bq35100.c:477-510 | From full access, seal first; then the two halves of the default key with a 100 ms pause between them. |
| Bq35100Driver.Bq35100.ReadExtended | drivers/fuel_gauge/bq35100/bq35100.c:237-315 | Guards, implicit unseal, transfer and mode restore. The caller's array ends up holding exactly what the reference read delivers. |
| Bq35100Driver.Bq35100.ReadTransfer | drivers/fuel_gauge/bq35100/bq35100.c:267-304 | Writes the address to the MAC register, then receives and checks the 36-byte frame. |
| Bq35100Driver.Bq35100.ReceiveMacFrame | drivers/fuel_gauge/bq35100/bq35100.c:275-304 | The frame read, its verification and the copy into the caller's array. |
| Bq35100Driver.Bq35100.ValidateMacFrame | drivers/fuel_gauge/bq35100/bq35100.c:279-300 | The frame is accepted exactly when the reference parser accepts it. The length to copy stays within both the frame and the caller's buffer. |
| Bq35100Driver.Bq35100.CopyOut | drivers/fuel_gauge/bq35100/bq35100.c:302-304 | The first `count` bytes of the caller's array become the frame's data bytes. The rest is untouched. |
| Bq35100Driver.Bq35100.WriteExtended | drivers/fuel_gauge/bq35100/bq35100.c:158-235 | Guards, implicit unseal, transfer and mode restore, exactly as the reference function. |
| Bq35100Driver.Bq35100.WriteTransfer | drivers/fuel_gauge/bq35100/bq35100.c:186-224 | Data frame, pause, checksum frame, pause, then one status read. |
| Bq35100Driver.Bq35100.PutMacWriteFrame | drivers/fuel_gauge/bq35100/bq35100.c:186-192 | The buffer starts with the MAC register, the address little-endian and the payload. |
| Bq35100Driver.Bq35100.PutMacSumFrame | drivers/fuel_gauge/bq35100/bq35100.c:196-206 | The buffer starts with the MAC checksum register, the checksum over address and payload, and the length (payload + 4). |
| Bq35100Driver.Bq35100.SetDesignCapacity | drivers/fuel_gauge/bq35100/bq35100.c:555-563 | Same result and traffic as the reference big-endian data-flash write. |
| Bq35100Driver.Bq35100.StartGauge | drivers/fuel_gauge/bq35100/bq35100.c:565-582 | GAUGE_START, then a wait for the running bit to be set. |
| Bq35100Driver.Bq35100.StopGauge | drivers/fuel_gauge/bq35100/bq35100.c:584-601 | GAUGE_STOP, then a wait for the running bit to be clear. |
| Bq35100Driver.Bq35100.SetNewBattery | drivers/fuel_gauge/bq35100/bq35100.c:603-624 | NEW_BATTERY, pause, design-capacity write, longer pause. |
| Bq35100Driver.Bq35100.Reset | drivers/fuel_gauge/bq35100/bq35100.c:626-645 | Unseal when sealed, then RESET. |
| Bq35100Driver.Bq35100.ReadRegisters | drivers/fuel_gauge/bq35100/bq35100.c:749-782 | The 6-byte register buffer ends up as the reference function fills it. |
| Bq35100Driver.Bq35100.ReadCapacityRegisters | drivers/fuel_gauge/bq35100/bq35100.c:764-777 | Accumulated capacity (4 bytes), then, if that read succeeds, design capacity (2 bytes). |
| Bq35100Driver.Bq35100.GetProp | drivers/fuel_gauge/bq35100/bq35100.c:784-800 | Result and value are those of the reference property read on a zeroed 6-byte buffer. |
| Bq35100Driver.Bq35100.SetProp | drivers/fuel_gauge/bq35100/bq35100.c:802-833 | Dispatch of the settable properties and custom actions. |
| Bq35100Driver.Bq35100.Init | drivers/fuel_gauge/bq35100/bq35100.c:850-902 | Status read, device-type check, mode seeding and init-complete wait. |
| Bq35100Lemmas.WriteGuardsRejectSilently | drivers/fuel_gauge/bq35100/bq35100.c:166-175 | Unknown mode, an address outside [0x4000, 0x43FF], a length outside [1, 32] or no data: returns 0, with nothing sent and the mode unchanged. |
| Bq35100Lemmas.WriteSendsFrameFirst | drivers/fuel_gauge/bq35100/bq35100.c:186-192 | On an unsealed or full-access device, the first frame of a valid write is [MAC, address low, address high, payload]. |
| Bq35100Lemmas.WriteExtendedFrames | drivers/fuel_gauge/bq35100/bq35100.c:186-224 | With three successful replies, the whole traffic is data frame, 100 ms, checksum frame, 100 ms, status read. The result is 0 whatever the status says, so bit 15 is not reported. |
| Bq35100Lemmas.MacSumFrameSeals | drivers/fuel_gauge/bq35100/bq35100.c:194-206 | The checksum frame's checksum seals address plus payload (sum 0xFF modulo 256). Its length byte is payload + 4. |
| Bq35100Lemmas.ParseDeviceFrame | drivers/fuel_gauge/bq35100/bq35100.c:279-304 | Round trip: a frame the device builds for `data` at `address` is accepted, and yields the data cut to the caller's length. |
| Bq35100Lemmas.ParseMacFrameAccepts | drivers/fuel_gauge/bq35100/bq35100.c:279-304 | For a length byte in [4, 38], a frame is accepted if and only if the address echo matches and byte 34 is the checksum of the first length−2 bytes. The data is then min(length−4, len) bytes from offset 2. |
| Bq35100Lemmas.CorruptedChecksumRejected | drivers/fuel_gauge/bq35100/bq35100.c:287-294 | A device frame with a changed checksum byte is rejected. |
| Bq35100Lemmas.ForeignAddressRejected | drivers/fuel_gauge/bq35100/bq35100.c:279-285 | A device frame echoing another address is rejected. |
| Bq35100Lemmas.ReadGuardsReject | drivers/fuel_gauge/bq35100/bq35100.c:247-255 | Unknown mode, an address outside [0x4000, 0x43FF] or no destination: −EINVAL, no data, nothing sent. |
| Bq35100Lemmas.AddressWriteFailureRejected | drivers/fuel_gauge/bq35100/bq35100.c:267-273 | On an unsealed or full-access device, a failed address write gives −EINVAL before any frame is read. |
| Bq35100Lemmas.UnsealedReadIsParse | drivers/fuel_gauge/bq35100/bq35100.c:267-304 | On an unsealed or full-access device the read is the address write and one 36-byte MAC read. A frame the validation rejects gives −EINVAL and no data. An accepted frame gives the validated data with the frame read's own return code, which is never checked. |
| Bq35100Lemmas.FailedFrameReadStillDelivers | drivers/fuel_gauge/bq35100/bq35100.c:277-304 | A frame read that fails while its buffer holds a valid device frame delivers the data together with −EIO. |
| Bq35100Lemmas.ReadExtendedKeepsMode | drivers/fuel_gauge/bq35100/bq35100.c:306-314 | A read that reports success ends in the mode it started in. |
| Bq35100Lemmas.WriteExtendedKeepsMode | drivers/fuel_gauge/bq35100/bq35100.c:226-234 | A write that reports success ends in the mode it started in. |
| Bq35100Lemmas.SealedReadReportsReseal | drivers/fuel_gauge/bq35100/bq35100.c:306-314 | On a sealed device the read returns the reseal's result together with the transfer's data, whatever the transfer returned. |
| Bq35100Lemmas.SealedWriteReportsReseal | drivers/fuel_gauge/bq35100/bq35100.c:226-234 | On a sealed device the write returns the reseal's result, which replaces the transfer's. |
| Bq35100Lemmas.SameModeIsNoOp | drivers/fuel_gauge/bq35100/bq35100.c:410-412 | Asking for the current mode returns 0 with nothing sent. |
| Bq35100Lemmas.UnknownTargetRejected | drivers/fuel_gauge/bq35100/bq35100.c:414-417 | Unknown as a target returns −EINVAL with nothing sent. |
| Bq35100Lemmas.NoRetriesNoTransition | drivers/fuel_gauge/bq35100/bq35100.c:407-422 | With zero retries, a real transition returns −EINVAL with nothing sent. |
| Bq35100Lemmas.TransitionIsVerifiedOnce | drivers/fuel_gauge/bq35100/bq35100.c:422-533 | A transition is one attempt and one verification read. A failed attempt's code is returned, a mode other than the target gives −EIO, and the target gives 0. |
| Bq35100Lemmas.SealedToFullAccessUnsealsFirst | drivers/fuel_gauge/bq35100/bq35100.c:436-444 | From sealed, the first frame of a full-access transition is the first half of the unseal key. |
| Bq35100Lemmas.SetModeBeginsWithAttempt | drivers/fuel_gauge/bq35100/bq35100.c:422-425 | With retries left, a real transition's traffic starts with one attempt on the buffer whose first byte is the MAC register. |
| Bq35100Lemmas.EnterFullAccessUnsealsFirst | drivers/fuel_gauge/bq35100/bq35100.c:437-446 | From sealed, the full-access case starts with a complete transition to unsealed, before the key is read. |
| Bq35100Lemmas.EnterUnsealedSealsFirst | drivers/fuel_gauge/bq35100/bq35100.c:478-493 | From full access, the unsealed case starts with a complete transition to sealed, before the key is sent. |
| Bq35100Lemmas.UnsealStartsWithKey | drivers/fuel_gauge/bq35100/bq35100.c:489-493 | From sealed, the unsealed attempt starts with [control register, key bits 16-23, key bits 24-31]. |
| Bq35100Lemmas.FullAccessToUnsealedSealsFirst | drivers/fuel_gauge/bq35100/bq35100.c:477-485 | From full access, the first frame of an unsealed transition is the SEALED control command. |
| Bq35100Lemmas.FullAccessKeyFrames | drivers/fuel_gauge/bq35100/bq35100.c:453-473 | The full-access key k0..k3 goes out as the frames [k0, k1, k0] and [k0, k3, k2]: buffer[0] still holds the key's first byte. |
| Bq35100Lemmas.KeyBytes | drivers/fuel_gauge/bq35100/bq35100.c:453-468 | The shifts and masks recover each key byte from the assembled 32-bit code. |
| Bq35100Lemmas.WaitEndsOnSuccessfulRead | drivers/fuel_gauge/bq35100/bq35100.c:343-348 | At any poll with rounds left, a successful status read ends the wait with 0 after that one read, whatever the status and however many polls failed before. |
| Bq35100Lemmas.WaitReportsStaleMatch | drivers/fuel_gauge/bq35100/bq35100.c:343-356 | When the first read fails, waiting for 0 under any mask reports a match (1) against the never-written status. |
| Bq35100Lemmas.WaitGivesUp | drivers/fuel_gauge/bq35100/bq35100.c:340-364 | If every read fails and a non-zero pattern is awaited, the wait makes all its polls, each followed by a sleep, and returns −EINVAL with the mode unchanged. |
| Bq35100Lemmas.StartGaugeIgnoresRunningBit | drivers/fuel_gauge/bq35100/bq35100.c:565-582 | Start succeeds once the command and one status read succeed, whether or not the running bit is set. |
| Bq35100Lemmas.StopGaugeFailedPollReportsOne | drivers/fuel_gauge/bq35100/bq35100.c:584-601 | Stop returns 1 when the command goes out but the status read fails. |
| Bq35100Lemmas.ResetSendsResetCommand | drivers/fuel_gauge/bq35100/bq35100.c:626-645 | On an unsealed or full-access device, reset is exactly one RESET frame and returns 1. |
| Bq35100Lemmas.DesignCapacityIsBigEndian | drivers/fuel_gauge/bq35100/bq35100.c:555-563 | The design capacity's first frame is [MAC, 0xFE, 0x41, high byte, low byte]. |
| Bq35100Lemmas.NewBatteryAnnouncedFirst | drivers/fuel_gauge/bq35100/bq35100.c:603-615 | NEW_BATTERY and a 200 ms pause come before the design-capacity write. |
| Bq35100Lemmas.InitSeedsModeFromStatus | drivers/fuel_gauge/bq35100/bq35100.c:850-888 | Init succeeds only if the status read succeeds and the device type is the BQ35100's. The mode is then the one in status bits 13-14. |
| Bq35100Lemmas.InitRejectsOtherDevice | drivers/fuel_gauge/bq35100/bq35100.c:862-866 | Another device type gives −ENODEV. |
| Bq35100Lemmas.RemainingCapacityExamples | drivers/fuel_gauge/bq35100/bq35100.c:647-665 | (2000, −500000) gives 1500000; (2000, −5000000) gives 0; (2000, 100000) gives 2000000. The state of charge at (2000, −1000000) is 50. |
| Bq35100Lemmas.VoltageRoundTrip | drivers/fuel_gauge/bq35100/bq35100.c:680-683 | Millivolts stored little-endian read back as microvolts (×1000). |
| Bq35100Lemmas.CurrentIsUnsigned | drivers/fuel_gauge/bq35100/bq35100.c:683-687 | Every 16-bit current word reads back as word×1000, unsigned: the raw 0xFF9C (−100 mA) reads as 65,436,000 µA. |
| Bq35100Lemmas.DesignCapacityRoundTrip | drivers/fuel_gauge/bq35100/bq35100.c:688-691 | Every design capacity stored little-endian reads back unchanged, in mAh. |
| Bq35100Lemmas.CapacityRoundTrip | drivers/fuel_gauge/bq35100/bq35100.c:692-711 | A buffer holding any signed accumulated capacity (32-bit two's complement) and design capacity decodes to the remaining capacity and state of charge calculated from those two values. |
| Bq35100Lemmas.CapacityReadingsBounded | drivers/fuel_gauge/bq35100/bq35100.c:694-711 | For any register contents, the remaining capacity is in [0, design×1000] and the state of charge in [0, 100]. |
| Bq35100Lemmas.UnreadablePropertySendsNothing | drivers/fuel_gauge/bq35100/bq35100.c:784-800 | A property without a data register is refused with −ENOTSUP or −EINVAL, and nothing is sent. |
| Bq35100Lemmas.ReadablePropertyReadsItsRegister | drivers/fuel_gauge/bq35100/bq35100.c:749-782 | A property with a data register reads that register first. |
| Bq35100Lemmas.WordPropertyReadsBus | drivers/fuel_gauge/bq35100/bq35100.c:762-766 | Voltage, current and design capacity make one 2-byte read of their register and return the word on the bus: ×1000 for voltage and current, unchanged for the design capacity. |
| Bq35100Lemmas.CapacityReadsTwoRegisters | drivers/fuel_gauge/bq35100/bq35100.c:767-775 | After a successful 4-byte accumulated-capacity read, the 2-byte design read follows. The buffer holds the two replies in that order, and the result is the second read's code. |
| Bq35100Lemmas.CapacityPropertyReadsBus | drivers/fuel_gauge/bq35100/bq35100.c:784-800 | When the device holds an accumulated capacity and a design capacity, remaining capacity and state of charge return the values calculated from them. |
| Bq35100Lemmas.FailedRegisterReadStops | drivers/fuel_gauge/bq35100/bq35100.c:761-800 | A failed first register read ends the property read with that read's code, and nothing more is sent. |
| Bq35100Lemmas.UnsettablePropertyRefused | drivers/fuel_gauge/bq35100/bq35100.c:828-830 | Any other property is refused with −ENOTSUP and nothing sent. |
| Lis2de12.FreqToOdrVal | drivers/sensor/st/lis2de12/lis2de12.c:524-535 | Returns −EINVAL if and only if the frequency exceeds 5376 Hz. Otherwise it returns the least index whose table rate is at least the frequency. |
| Lis2de12.AccelRangeToFsVal | drivers/sensor/st/lis2de12/lis2de12.c:549-560 | Returns −EINVAL if and only if the range is not one of 2, 4, 8, 16 g. Otherwise it returns the index of that range. |
| Lis2de12.TempChannelGet | drivers/sensor/st/lis2de12/lis2de12.c:763-774 | The reported value minus 25 °C is raw/256 °C truncated toward zero to the µ°C. val2 carries the sign of the raw sample, and val1 lies in [−103, 152]. |
| Lis2de12.TempWholeDegrees | drivers/sensor/st/lis2de12/lis2de12.c:763-774 | A raw value of 256·k reads exactly k + 25 °C. |
| Lis2de12.TempMonotone | drivers/sensor/st/lis2de12/lis2de12.c:763-774 | A larger raw sample never reads colder. |
| Lis2de12.TempFractionFollowsOffset | drivers/sensor/st/lis2de12/lis2de12.c:771-773 | −128 LSB reads (25, −500000) and −384 LSB reads (24, −500000). The fractional part follows the offset from 25 °C, not the sign of the value. |
| Lis2de12.OdrLookupInvertsTable | drivers/sensor/st/lis2de12/lis2de12.c:524-535 | Every table rate selects its own index. |
| Lis2de12.OdrLookupMonotone | drivers/sensor/st/lis2de12/lis2de12.c:524-535 | A higher requested rate never selects a lower index. |
| Lis2de12.FsLookupInvertsTable | drivers/sensor/st/lis2de12/lis2de12.c:542-560 | The ranges of the full-scale table are distinct, so each selects its own index. |
| Lis2de12.Lis2de12.constructor | drivers/sensor/st/lis2de12/lis2de12.c:1002 | The driver data is a zero-initialised static object with three raw axes. |
| Lis2de12.Lis2de12.AccelSetFsRaw | drivers/sensor/st/lis2de12/lis2de12.c:562-575 | A HAL failure gives −EIO and leaves `accel_fs` alone. Success records the value and returns 0. Nothing else changes. |
| Lis2de12.Lis2de12.AccelSetOdrRaw | drivers/sensor/st/lis2de12/lis2de12.c:577-590 | A HAL failure gives −EIO and leaves `accel_freq` alone. Success records the value and returns 0. Nothing else changes. |
| Lis2de12.Lis2de12.AccelOdrSet | drivers/sensor/st/lis2de12/lis2de12.c:592-607 | −EINVAL if and only if the rate is beyond the table, and −EIO if and only if the rate is valid but the HAL fails. On success `accel_freq` is the least adequate table index; otherwise it is unchanged. |
| Lis2de12.Lis2de12.AccelRangeSet | drivers/sensor/st/lis2de12/lis2de12.c:609-626 | −EINVAL if and only if the range is unsupported, and −EIO if and only if it is supported but the HAL fails. Either error leaves `accel_fs` and `acc_gain` unchanged. On success `accel_fs` selects the range and `acc_gain` is that range's sensitivity. |
| Lis2de12.Lis2de12.AttrSet | drivers/sensor/st/lis2de12/lis2de12.c:628-656 | Only the XYZ channel's full scale and sampling frequency are settable; everything else gives −ENOTSUP with nothing changed. For each of the two, the result is −EINVAL exactly for a value outside the table, −EIO exactly for a supported value the HAL fails to write, and 0 exactly for a supported value the HAL writes. On success the scale and its sensitivity, or the selected rate, are recorded. The frequency is the caller's integer part truncated to 16 bits. |
| Lis2de12.Lis2de12.SampleFetchAccel | drivers/sensor/st/lis2de12/lis2de12.c:658-670 | The three raw axes are stored. The result is −EIO on HAL failure and 0 otherwise. |
| Lis2de12.Lis2de12.SampleFetchTemp | drivers/sensor/st/lis2de12/lis2de12.c:673-685 | The raw temperature is stored. The result is −EIO on HAL failure and 0 otherwise. |
| Lis2de12.Lis2de12.SampleFetch | drivers/sensor/st/lis2de12/lis2de12.c:688-711 | −ENOTSUP exactly for unsupported channels, and 0 for supported ones even when the HAL fails. Only the requested samples are refreshed. |
| Lis2de12.Lis2de12.ChannelGet | drivers/sensor/st/lis2de12/lis2de12.c:726-800 | Succeeds exactly for the acceleration channels and, when enabled, the die temperature. Each axis hands its own raw sample (all three for XYZ) and the recorded sensitivity to the conversion. An enabled die temperature always returns the converted last sample. |

## Left out

- The I²C transport (`bq35100_write`, `bq35100_read`) is a script of replies, one per transaction. An exhausted script reads as −EIO. A read always delivers the reply's bytes into the buffer, also when it reports failure.
- `k_sleep` is an event in the trace; there is no real time.
- The logging macros and `lis2de12_print_registers` are left out: they produce diagnostics only.
- `lis2de12_accel_convert` is left out because it computes in floating point (`SENSOR_G_DOUBLE`). The model stops at its inputs: the raw sample and the sensitivity.
- `sensor_ms2_to_g` is not part of this model. `AttrSet` receives its result as a parameter.
- The ST register HAL is left out. Each call is represented by the status it returns and, for the raw getters, the values it writes; the model takes these values to be written whether the call fails or not.
- `lis2de12_init_chip`, `lis2de12_init`, the trigger support and the devicetree instantiation macros of both drivers are left out. They are fixed HAL call sequences and registration glue.
- The bus-readiness check at the start of `bq35100_init` is a device-model call and is left out.
- `bq35100.h` and `lis2de12.h` are not part of this model. The register addresses, control opcodes, flash addresses, default key, device type and delays come from the BQ35100 data sheet. The field widths of the LIS2DE12 driver data follow their use in the code.
- The null-pointer checks of internal helpers are left out. This covers `get_cntl`, `get_status`, `get_device_type`, `read_registers`, `process_prop` and the output pointer of `get_prop`; every call site passes a valid pointer. The `data` argument of the extended read and write is modelled, as present or absent.
- Uninitialised C locals (the `answer` of the status wait, bytes 1-3 of the security-mode buffer) are taken to be 0. `char` is taken to be unsigned.
- `g_security_mode` is one variable shared by all device instances; the model gives each driver object its own mode.
- Bq35100Protocol.ParseMacFrame: a length byte of 0, 1 or above 38 makes the C checksum loop read past the 36-byte frame. A length byte of 2 or 3 makes the data length wrap to a huge `size_t`; it is then clamped to the caller's length, and the copy reads past the frame when that length exceeds 34. The model rejects exactly the frames that would be read out of bounds, with −EINVAL, instead of modelling the undefined behaviour.
- BlockChecksum.ComputeChecksum: requires at most 254 bytes. The `uint8_t` loop counter wraps from 255 to 0, so the C loop never ends for 255 bytes or more. The callers in the model pass at most 36 bytes.
- Bq35100Driver.Bq35100.SendData: requires at most 2 data bytes, because its only callers send a 16-bit opcode. The C code copies into a 3-byte stack buffer.
- The protocol-level functions of Bq35100Protocol state only that the trace grows and that a known mode is never lost. Their exact traffic is stated by the lemmas of Bq35100Lemmas, and the driver methods are proved equal to them.
