/**
 * The BQ35100 driver as the imperative code it is: an object holding the
 * driver's security mode (the global g_security_mode of the original) and
 * its I2C transport, with one method per driver function, local buffers as
 * arrays, and the original's loops. Every method is proved to behave
 * exactly as the reference function of the same name in Bq35100Protocol
 * or Bq35100PropertyEngine, so what is proved about those functions holds
 * for the driver.
 */
module Bq35100Driver {
  import opened ByteOrder
  import opened Errno
  import opened BlockChecksum
  import opened P = Bq35100Protocol
  import opened E = Bq35100PropertyEngine

  class Bq35100 {
    /** g_security_mode: the mode the driver believes the device is in. */
    var securityMode: SecurityMode
    /** The transport's scripted replies still to come. */
    var replies: seq<Reply>
    /** Everything put on the bus so far. */
    ghost var trace: seq<Event>
    /** CONFIG_BQ35100_MAX_RETRIES. */
    const maxRetries: nat

    ghost function State(): Bus
      reads this
    {
      Bus(securityMode, replies, trace)
    }

    /** A driver instance before init: the mode is not yet known and nothing has been sent. */
    constructor (script: seq<Reply>, retries: nat)
      ensures State() == Bus(Unknown, script, []) && maxRetries == retries
    {
      securityMode := Unknown;
      replies := script;
      trace := [];
      maxRetries := retries;
    }

    // ------------------------------------------------------------ transport

    /** bq35100_write: one I2C write of the whole frame. */
    method WriteFrame(frame: seq<byte>) returns (rc: int)
      modifies this
      ensures Step(rc, State()) == P.BusWrite(old(State()), frame)
    {
      rc := NextReply(replies).rc;
      replies := Consume(replies);
      trace := trace + [Write(frame)];
    }

    /**
     * bq35100_get_data: write the register address, then read `count` bytes
     * into `dest` from index `at` on. The bytes land whatever the return code.
     */
    method GetData(register: byte, dest: array<byte>, at: nat, count: nat) returns (rc: int)
      requires at + count <= dest.Length
      modifies this, dest
      ensures var f := P.BusRead(old(State()), register, count);
              rc == f.rc && State() == f.bus && dest[..] == old(dest[..at]) + f.data + old(dest[at + count..])
    {
      var reply := NextReply(replies);
      var received := Fit(reply.data, count);
      forall i | 0 <= i < count {
        dest[at + i] := received[i];
      }
      assert dest[..] == old(dest[..at]) + received + old(dest[at + count..]);
      rc := reply.rc;
      replies := Consume(replies);
      trace := trace + [Read(register, count)];
    }

    /**
     * bq35100_send_data: the register address followed by `len` data bytes as
     * one 3-byte write; bytes not covered by `len` are the unset part of the
     * local buffer, taken as 0.
     */
    method SendData(register: byte, data: array<byte>, len: nat) returns (rc: int)
      requires len <= 2 && len <= data.Length
      modifies this
      ensures Step(rc, State()) == P.BusWrite(old(State()), [register] + data[..len] + Zeros(2 - len))
    {
      var buffer := new byte[3](_ => 0);
      buffer[0] := register;
      forall i | 0 <= i < len {
        buffer[1 + i] := data[i];
      }
      assert buffer[..] == [register] + data[..len] + Zeros(2 - len);
      rc := WriteFrame(buffer[..]);
    }

    // ------------------------------------------------------------ control / status

    /** bq35100_send_cntl */
    method SendCntl(opcode: u16) returns (rc: int)
      modifies this
      ensures Step(rc, State()) == P.SendCntl(old(State()), opcode)
    {
      var buffer := new byte[2](_ => 0);
      buffer[0], buffer[1] := opcode % 0x100, opcode / 0x100;
      assert [RegControlStatus] + buffer[..2] + Zeros(0) == [RegControlStatus] + Le16(opcode);
      rc := SendData(RegControlStatus, buffer, 2);
    }

    /** bq35100_get_cntl; the output is written only on success. */
    method GetCntl(opcode: u16) returns (rc: int, value: u16)
      modifies this
      ensures Word(rc, value, State()) == P.GetCntl(old(State()), opcode)
    {
      value := 0;
      var buffer := new byte[2](_ => 0);
      buffer[0], buffer[1] := opcode % 0x100, opcode / 0x100;
      assert [RegControlStatus] + buffer[..2] + Zeros(0) == [RegControlStatus] + Le16(opcode);
      rc := SendData(RegControlStatus, buffer, 2);
      if rc != 0 {
        return;
      }
      rc := GetData(RegControlStatus, buffer, 0, 2);
      if rc != 0 {
        return;
      }
      rc := GetData(RegMacData, buffer, 0, 2);
      if rc != 0 {
        return;
      }
      value := buffer[0] as int + 0x100 * (buffer[1] as int);
    }

    /** bq35100_get_device_type */
    method GetDeviceType() returns (rc: int, deviceType: u16)
      modifies this
      ensures Word(rc, deviceType, State()) == P.GetCntl(old(State()), CmdDeviceType)
    {
      rc, deviceType := GetCntl(CmdDeviceType);
    }

    /** bq35100_get_status */
    method GetStatus() returns (rc: int, status: u16)
      modifies this
      ensures Word(rc, status, State()) == P.GetStatus(old(State()))
    {
      status := 0;
      var data := new byte[2](_ => 0);
      rc := GetData(RegControlStatus, data, 0, 2);
      if rc != 0 {
        return;
      }
      status := data[0] as int + 0x100 * (data[1] as int);
    }

    /**
     * bq35100_wait_for_status: up to maxRetries status reads with a sleep
     * between them. A successful read returns 0 straight away, so `answer`
     * is compared only while it still holds its initial value.
     */
    method WaitForStatus(expected: u16, mask: u16, ms: nat) returns (r: int)
      modifies this
      ensures Step(r, State()) == P.WaitForStatus(old(State()), maxRetries, expected, mask, ms)
    {
      var answer: u16 := 0;
      var i := 0;
      while i < maxRetries
        invariant 0 <= i <= maxRetries
        invariant P.WaitLoop(State(), maxRetries, i, answer, expected, mask, ms)
               == P.WaitForStatus(old(State()), maxRetries, expected, mask, ms)
      {
        var rc, status := GetStatus();
        if rc == 0 {
          return 0;
        }
        if And16(answer, mask) == expected {
          return 1;
        }
        trace := trace + [Sleep(ms)];
        i := i + 1;
      }
      return -EINVAL;
    }

    /**
     * bq35100_get_security_mode writing through to g_security_mode: the
     * second of two status reads decides; the result is always 0.
     */
    method GetSecurityMode() returns (r: int)
      modifies this
      ensures r == 0
      ensures State() == P.GetSecurityMode(old(State()))
    {
      var rc, buffer := GetStatus();
      rc, buffer := GetStatus();
      if rc != 0 {
        return 0;
      }
      var extracted := SecurityBits(buffer);
      var mode := ModeOfBits(extracted);
      if mode == Unknown {
        return 0;
      }
      securityMode := mode;
      return 0;
    }

    // ------------------------------------------------------------ security state machine

    /** bq35100_set_security_mode, with the retry loop over a 4-byte local buffer. */
    method SetSecurityMode(newSecurity: SecurityMode) returns (result: int)
      modifies this
      ensures Step(result, State()) == P.SetSecurityMode(old(State()), maxRetries, newSecurity)
      decreases Rank(newSecurity), 2, 0
    {
      result := -EINVAL;
      if newSecurity == securityMode {
        return 0;
      }
      if newSecurity == Unknown {
        return -EINVAL;
      }
      var buffer := new byte[4](_ => 0);
      assert buffer[..] == [0, 0, 0, 0];
      var i := 0;
      while i < maxRetries && result != 0
        invariant result == 0 ==> securityMode == newSecurity
        invariant P.SetModeLoop(State(), maxRetries, newSecurity, i, result, buffer[..])
               == P.SetSecurityMode(old(State()), maxRetries, newSecurity)
        decreases maxRetries - i
      {
        ghost var before := buffer[..];
        buffer[0] := RegMac;
        assert buffer[..] == before[0 := RegMac];
        var rc := TransitionAttempt(newSecurity, buffer);
        if rc != 0 {
          return rc;
        }
        result := GetSecurityMode();
        if securityMode != newSecurity {
          return -EIO;
        }
        i := i + 1;
      }
    }

    /** One pass through the switch of bq35100_set_security_mode's retry loop. */
    method TransitionAttempt(target: SecurityMode, buffer: array<byte>) returns (result: int)
      requires buffer.Length == 4
      modifies this, buffer
      ensures var a := P.TransitionAttempt(old(State()), maxRetries, target, old(buffer[..]));
              result == a.rc && State() == a.bus && buffer[..] == a.buf
      decreases Rank(target), 1, 0
    {
      match target {
        case Sealed =>
          result := SendCntl(CmdSealed);
        case FullAccess =>
          result := EnterFullAccess(buffer);
        case Unsealed =>
          result := EnterUnsealed(buffer);
        case Unknown =>
          result := 0;
      }
    }

    /** The SECURITY_FULL_ACCESS case of the switch. */
    method EnterFullAccess(buffer: array<byte>) returns (result: int)
      requires buffer.Length == 4
      modifies this, buffer
      ensures var a := P.EnterFullAccess(old(State()), maxRetries, old(buffer[..]));
              result == a.rc && State() == a.bus && buffer[..] == a.buf
      decreases Rank(FullAccess), 0, 1
    {
      if securityMode == Sealed {
        result := SetSecurityMode(Unsealed);
        if result != 0 {
          return;
        }
      }
      result := ReadExtended(FlashFullAccessCodes, buffer, 4);
      if result != 0 {
        return;
      }
      result := SendFullAccessKey(buffer);
    }

    /** The two key writes of the SECURITY_FULL_ACCESS case. */
    method SendFullAccessKey(buffer: array<byte>) returns (result: int)
      requires buffer.Length == 4
      modifies this, buffer
      ensures var a := P.SendFullAccessKey(old(State()), old(buffer[..]));
              result == a.rc && State() == a.bus && buffer[..] == a.buf
    {
      var codes := BigEndianCodes(buffer[..]);
      buffer[2] := codes / 0x100_0000 % 0x100;
      buffer[1] := codes / 0x1_0000 % 0x100;
      result := WriteFrame(buffer[..3]);
      if result != 0 {
        return;
      }
      buffer[2] := codes / 0x100 % 0x100;
      buffer[1] := codes % 0x100;
      result := WriteFrame(buffer[..3]);
    }

    /** The SECURITY_UNSEALED case of the switch. */
    method EnterUnsealed(buffer: array<byte>) returns (result: int)
      requires buffer.Length == 4
      modifies this, buffer
      ensures var a := P.EnterUnsealed(old(State()), maxRetries, old(buffer[..]));
              result == a.rc && State() == a.bus && buffer[..] == a.buf
      decreases Rank(Unsealed), 0, 1
    {
      if securityMode == FullAccess {
        result := SetSecurityMode(Sealed);
        if result != 0 {
          return;
        }
      }
      buffer[0] := RegControlStatus;
      buffer[2] := DefaultSealCodes / 0x100_0000 % 0x100;
      buffer[1] := DefaultSealCodes / 0x1_0000 % 0x100;
      result := WriteFrame(buffer[..3]);
      if result != 0 {
        return;
      }
      trace := trace + [Sleep(FlashWriteDelay)];
      buffer[2] := DefaultSealCodes / 0x100 % 0x100;
      buffer[1] := DefaultSealCodes % 0x100;
      result := WriteFrame(buffer[..3]);
    }

    // ------------------------------------------------------------ extended memory

    /**
     * bq35100_read_extended_data: unseal when sealed, transfer, and restore
     * the entry mode if it changed (the restoration's result is returned).
     */
    method ReadExtended(address: u16, data: array?<byte>, len: nat) returns (result: int)
      requires data != null ==> len <= data.Length
      modifies this, data
      ensures var f := P.ReadExtended(old(State()), maxRetries, address, len, data != null);
              result == f.rc && State() == f.bus &&
              (data != null ==> data[..] == Overwrite(old(data[..]), f.data))
      decreases 2, 0, 0
    {
      var prevSecurityMode := securityMode;
      if securityMode == Unknown {
        return -EINVAL;
      }
      if address < MacAddressLow || address > MacAddressHigh || data == null {
        return -EINVAL;
      }
      if securityMode == Sealed {
        result := SetSecurityMode(Unsealed);
        if result != 0 {
          return -EINVAL;
        }
      }
      result := ReadTransfer(address, data, len);
      if prevSecurityMode != securityMode {
        result := SetSecurityMode(prevSecurityMode);
      }
    }

    /**
     * The bus part of bq35100_read_extended_data, up to its END label: the
     * address write, the 36-byte read, and the checks of echo, checksum and
     * length before the copy into `data`.
     */
    method ReadTransfer(address: u16, data: array<byte>, len: nat) returns (result: int)
      requires len <= data.Length
      modifies this, data
      ensures var f := P.ReadTransfer(old(State()), address, len);
              result == f.rc && State() == f.bus && data[..] == Overwrite(old(data[..]), f.data)
    {
      var buffer := new byte[MacCompleteLen](_ => 0);
      buffer[0], buffer[1] := address % 0x100, address / 0x100;
      assert [RegMac] + buffer[..2] + Zeros(0) == [RegMac] + Le16(address);
      assert Overwrite(data[..], []) == data[..];
      result := SendData(RegMac, buffer, 2);
      if result != 0 {
        return -EINVAL;
      }
      result := ReceiveMacFrame(buffer, address, data, len);
    }

    /**
     * The 36-byte read of bq35100_read_extended_data into `buffer`, its
     * checks, and the copy of the accepted bytes into `data`.
     */
    method ReceiveMacFrame(buffer: array<byte>, address: u16, data: array<byte>, len: nat) returns (result: int)
      requires buffer.Length == MacCompleteLen && len <= data.Length && buffer != data
      modifies this, buffer, data
      ensures var f := P.ReceiveMacFrame(old(State()), address, len);
              result == f.rc && State() == f.bus && data[..] == Overwrite(old(data[..]), f.data)
    {
      assert Overwrite(data[..], []) == data[..];
      ghost var sent := State();
      result := GetData(RegMac, buffer, 0, MacCompleteLen);
      assert buffer[..] == P.BusRead(sent, RegMac, MacCompleteLen).data;
      var valid, lengthRead := ValidateMacFrame(buffer, address, len);
      if !valid {
        return -EINVAL;
      }
      CopyOut(data, buffer, lengthRead);
    }

    /** memcpy(data, buffer + 2, count). */
    method CopyOut(data: array<byte>, buffer: array<byte>, count: nat)
      requires count <= data.Length && 2 + count <= buffer.Length && data != buffer
      modifies data
      ensures data[..] == Overwrite(old(data[..]), buffer[2..2 + count])
    {
      forall i | 0 <= i < count {
        data[i] := buffer[2 + i];
      }
      assert data[..] == buffer[2..2 + count] + old(data[count..]);
    }

    /**
     * The checks of bq35100_read_extended_data on the 36-byte frame read
     * back: the echoed address, the checksum over the first `buffer[35] - 2`
     * bytes, and the data length `buffer[35] - 4` clamped to `len`.
     */
    method ValidateMacFrame(buffer: array<byte>, address: u16, len: nat) returns (valid: bool, lengthRead: nat)
      requires buffer.Length == MacCompleteLen
      ensures valid <==> ParseMacFrame(buffer[..], address, len).Accepted?
      ensures valid ==> 2 + lengthRead <= MacCompleteLen && lengthRead <= len &&
                        ParseMacFrame(buffer[..], address, len).data == buffer[2..2 + lengthRead]
    {
      lengthRead := 0;
      if buffer[0] != address % 0x100 || buffer[1] != address / 0x100 {
        return false, 0;
      }
      var covered := SizeT(buffer[35] as int - 2);
      if covered > MacCompleteLen {
        return false, 0;
      }
      var sum := ComputeChecksum(buffer, 0, covered);
      if buffer[34] != sum {
        return false, 0;
      }
      lengthRead := SizeT(buffer[35] as int - 4);
      if lengthRead > len {
        lengthRead := len;
      }
      valid := 2 + lengthRead <= MacCompleteLen;
    }

    /**
     * bq35100_write_extended_data: guard failures return 0 (`false`); unseal
     * when sealed, transfer, restore the entry mode if it changed.
     */
    method WriteExtended(address: u16, data: array?<byte>, len: nat) returns (result: int)
      requires data != null ==> len <= data.Length
      modifies this
      ensures Step(result, State())
           == P.WriteExtended(old(State()), maxRetries, address, if data == null then None else Some(data[..]), len)
    {
      result := 0;
      var prevSecurityMode := securityMode;
      if securityMode == Unknown {
        return 0;
      }
      if address < MacAddressLow || address > MacAddressHigh || len < 1 || len > MacDataLen || data == null {
        return 0;
      }
      if securityMode == Sealed {
        result := SetSecurityMode(Unsealed);
        if result != 0 {
          return -EINVAL;
        }
      }
      result := WriteTransfer(address, data, len);
      if prevSecurityMode != securityMode {
        result := SetSecurityMode(prevSecurityMode);
      }
    }

    /**
     * The bus part of bq35100_write_extended_data, up to its END label, over
     * a 35-byte local buffer: the framed write, the checksum and length write,
     * and the status read whose write-failed bit leaves the result at 0.
     */
    method WriteTransfer(address: u16, data: array<byte>, len: nat) returns (result: int)
      requires 1 <= len <= MacDataLen && len <= data.Length
      modifies this
      ensures Step(result, State()) == P.WriteTransfer(old(State()), address, data[..len])
    {
      var buffer := new byte[MacDataLen + 3](_ => 0);
      PutMacWriteFrame(buffer, address, data, len);
      result := WriteFrame(buffer[..3 + len]);
      if result != 0 {
        return;
      }
      trace := trace + [Sleep(FlashWriteDelay)];
      PutMacSumFrame(buffer, address, data, len);
      result := WriteFrame(buffer[..3]);
      if result != 0 {
        return;
      }
      trace := trace + [Sleep(FlashWriteDelay)];
      var answer;
      result, answer := GetStatus();
      // A set write-failed bit (bit 15 of `answer`) leads to the exit with
      // the result still 0, exactly like a successful write.
    }

    /**
     * The framing step of bq35100_write_extended_data: the MAC register,
     * the address little-endian and the payload at the head of `buffer`.
     */
    method PutMacWriteFrame(buffer: array<byte>, address: u16, data: array<byte>, len: nat)
      requires len <= data.Length && buffer.Length == MacDataLen + 3 && len <= MacDataLen
      requires buffer != data
      modifies buffer
      ensures buffer[..3 + len] == MacWriteFrame(address, data[..len])
    {
      buffer[0] := RegMac;
      buffer[1], buffer[2] := address % 0x100, address / 0x100;
      forall i | 0 <= i < len {
        buffer[3 + i] := data[i];
      }
      ghost var frame := buffer[..3 + len];
      assert frame[3..] == data[..len];
      assert frame[..3] == [RegMac] + Le16(address);
      assert frame == frame[..3] + frame[3..];
    }

    /**
     * The second framing step of bq35100_write_extended_data, over the
     * buffer that still holds the first frame: the MAC data-sum register,
     * the checksum of address and payload, and the length byte len + 4.
     */
    method PutMacSumFrame(buffer: array<byte>, address: u16, data: array<byte>, len: nat)
      requires len <= data.Length && buffer.Length == MacDataLen + 3 && len <= MacDataLen
      requires buffer[..3 + len] == MacWriteFrame(address, data[..len])
      requires buffer != data
      modifies buffer
      ensures buffer[..3] == MacSumFrame(address, data[..len])
    {
      ghost var frame := buffer[..3 + len];
      buffer[0] := RegMacDataSum;
      assert buffer[1..1 + (len + 2)] == frame[1..] == Le16(address) + data[..len];
      var sum := ComputeChecksum(buffer, 1, len + 2);
      buffer[1] := sum;
      buffer[2] := len + 4;
    }

    // ------------------------------------------------------------ gauge commands

    /** bq35100_set_design_capacity */
    method SetDesignCapacity(capacity: u16) returns (result: int)
      modifies this
      ensures Step(result, State()) == P.SetDesignCapacity(old(State()), maxRetries, capacity)
    {
      var buffer := new byte[2](_ => 0);
      buffer[0], buffer[1] := capacity / 0x100, capacity % 0x100;
      assert buffer[..] == Be16(capacity);
      result := WriteExtended(FlashSetNewCapacity, buffer, 2);
    }

    /** bq35100_start_gauge */
    method StartGauge() returns (result: int)
      modifies this
      ensures Step(result, State()) == P.StartGauge(old(State()), maxRetries)
    {
      result := SendCntl(CmdGaugeStart);
      if result != 0 {
        return;
      }
      result := WaitForStatus(1, 1, GaugePollInterval);
      if result != 0 {
        return;
      }
      return 0;
    }

    /** bq35100_stop_gauge */
    method StopGauge() returns (result: int)
      modifies this
      ensures Step(result, State()) == P.StopGauge(old(State()), maxRetries)
    {
      result := SendCntl(CmdGaugeStop);
      if result != 0 {
        return;
      }
      result := WaitForStatus(0, 1, GaugePollInterval);
      if result != 0 {
        return;
      }
      return 0;
    }

    /** bq35100_set_new_battery */
    method SetNewBattery(capacity: u16) returns (result: int)
      modifies this
      ensures Step(result, State()) == P.SetNewBattery(old(State()), maxRetries, capacity)
    {
      result := SendCntl(CmdNewBattery);
      if result != 0 {
        return;
      }
      trace := trace + [Sleep(2 * FlashWriteDelay)];
      result := SetDesignCapacity(capacity);
      if result != 0 {
        return;
      }
      trace := trace + [Sleep(NewBatteryDelay)];
      return 0;
    }

    /** bq35100_reset */
    method Reset() returns (result: int)
      modifies this
      ensures Step(result, State()) == P.Reset(old(State()), maxRetries)
    {
      if securityMode == Sealed {
        result := SetSecurityMode(Unsealed);
        if result != 0 {
          return -EINVAL;
        }
      }
      result := SendCntl(CmdReset);
      if result != 0 {
        return -EINVAL;
      }
      return 1;
    }

    // ------------------------------------------------------------ fuel-gauge API

    /** bq35100_read_registers into the 6-byte `buffer`. */
    method ReadRegisters(prop: Property, buffer: array<byte>) returns (result: int)
      requires buffer.Length == 6
      modifies this, buffer
      ensures var f := E.ReadRegisters(old(State()), prop, old(buffer[..]));
              result == f.rc && State() == f.bus && buffer[..] == f.data
    {
      var address := GetRegister(prop) % 0x100;
      match prop {
        case Voltage =>
          result := GetData(address, buffer, 0, 2);
        case Current =>
          result := GetData(address, buffer, 0, 2);
        case DesignCapacity =>
          result := GetData(address, buffer, 0, 2);
        case RemainingCapacity =>
          result := ReadCapacityRegisters(buffer);
        case AbsoluteStateOfCharge =>
          result := ReadCapacityRegisters(buffer);
        case _ =>
          result := -ENOTSUP;
      }
    }

    /** The accumulated-capacity branch of bq35100_read_registers. */
    method ReadCapacityRegisters(buffer: array<byte>) returns (result: int)
      requires buffer.Length == 6
      modifies this, buffer
      ensures var f := E.ReadRegisters(old(State()), RemainingCapacity, old(buffer[..]));
              result == f.rc && State() == f.bus && buffer[..] == f.data
    {
      result := GetData(RegAccumulatedCapacity, buffer, 0, 4);
      if result == 0 {
        result := GetData(RegDesignCapacity, buffer, 4, 2);
      }
    }

    /** bq35100_get_prop over an uninitialised 6-byte buffer, taken as zeros. */
    method GetProp(prop: Property) returns (result: int, value: int)
      modifies this
      ensures Got(result, value, State()) == E.GetProp(old(State()), prop, Zeros(6))
    {
      value := 0;
      if prop.Other? && prop.id >= PropMax {
        return -EINVAL, 0;
      }
      var buffer := new byte[6](_ => 0);
      assert buffer[..] == Zeros(6);
      result := ReadRegisters(prop, buffer);
      if result == 0 {
        match ProcessProp(prop, buffer[..]) {
          case Converted(v) => value := v;
          case Unsupported => result := -ENOTSUP;
        }
      }
    }

    /** bq35100_set_prop */
    method SetProp(prop: Property, designCap: u16) returns (result: int)
      modifies this
      ensures Step(result, State()) == E.SetProp(old(State()), maxRetries, prop, designCap)
    {
      match prop {
        case DesignCapacity => result := SetDesignCapacity(designCap);
        case BqNewBattery => result := SetNewBattery(designCap);
        case BqReset => result := Reset();
        case BqStart => result := StartGauge();
        case BqStop => result := StopGauge();
        case _ => result := -ENOTSUP;
      }
    }

    /** bq35100_init once the bus is ready. */
    method Init() returns (result: int)
      modifies this
      ensures Step(result, State()) == P.Init(old(State()), maxRetries)
    {
      var rc, status := GetStatus();
      if rc != 0 {
        return -ENODEV;
      }
      var deviceType;
      rc, deviceType := GetDeviceType();
      if rc != 0 {
        return -ENODEV;
      }
      if deviceType != DeviceType {
        return -ENODEV;
      }
      var extractedSecurity := ModeOfBits(SecurityBits(status));
      if extractedSecurity == Unknown {
        return -ENODEV;
      }
      securityMode := extractedSecurity;
      if !Bit(status, 7) {
        var w := WaitForStatus(0x80, 0x80, InitPollInterval);
        if w != 0 {
          return -ENODEV;
        }
      }
      return 0;
    }
  }
}
