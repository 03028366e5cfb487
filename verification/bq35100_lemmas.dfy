/**
 * Properties of the BQ35100 protocol engine, proved about the reference
 * functions that the driver class is shown to follow: the extended-memory
 * framing and its validation, the silent guards and the mode restoration,
 * the security state machine, the status polling, the gauge commands,
 * init, and the property conversions.
 */
module Bq35100Lemmas {
  import opened ByteOrder
  import opened Errno
  import opened BlockChecksum
  import opened Bq35100Protocol
  import opened Bq35100PropertyEngine

  function Min(a: int, b: int): int
  {
    if a <= b then a else b
  }

  // ------------------------------------------------------------ extended-memory write

  /**
   * The guards of bq35100_write_extended_data (unknown mode, an address
   * outside the data-flash window, a length outside [1, 32], no data) return
   * 0, send nothing and leave the mode alone.
   */
  lemma WriteGuardsRejectSilently(b: Bus, retries: nat, address: u16, data: Option<seq<byte>>, len: nat)
    requires data.Some? ==> len <= |data.value|
    requires b.mode == Unknown || address < MacAddressLow || address > MacAddressHigh ||
             len < 1 || len > MacDataLen || data.None?
    ensures WriteExtended(b, retries, address, data, len) == Step(0, b)
  {
  }

  /**
   * Once the guards pass on an unsealed or full-access device, the first
   * thing on the bus is the framed write: MAC register, address low byte,
   * address high byte, then the first `len` payload bytes.
   */
  lemma WriteSendsFrameFirst(b: Bus, retries: nat, address: u16, data: seq<byte>, len: nat)
    requires b.mode == Unsealed || b.mode == FullAccess
    requires MacAddressLow <= address <= MacAddressHigh && 1 <= len <= MacDataLen && len <= |data|
    ensures b.trace + [Write(MacWriteFrame(address, data[..len]))]
            <= WriteExtended(b, retries, address, Some(data), len).bus.trace
  {
    var w1 := BusWrite(b, MacWriteFrame(address, data[..len]));
    assert b.trace + [Write(MacWriteFrame(address, data[..len]))] == w1.bus.trace;
    var t := WriteTransfer(b, address, data[..len]);
    assert w1.bus.trace <= t.bus.trace by {
      if w1.rc == 0 {
        var w2 := BusWrite(BusSleep(w1.bus, FlashWriteDelay), MacSumFrame(address, data[..len]));
        assert w1.bus.trace <= w2.bus.trace;
      }
    }
  }

  /**
   * A write on an unsealed or full-access device whose three bus
   * transactions succeed puts exactly the two frames, their settle delays
   * and one status read on the bus, and returns 0 whatever the status says:
   * a set write-failed bit (bit 15) is not reported.
   */
  lemma WriteExtendedFrames(b: Bus, retries: nat, address: u16, payload: seq<byte>)
    requires b.mode == Unsealed || b.mode == FullAccess
    requires MacAddressLow <= address <= MacAddressHigh && 1 <= |payload| <= MacDataLen
    requires |b.replies| >= 3 && b.replies[0].rc == 0 && b.replies[1].rc == 0 && b.replies[2].rc == 0
    ensures WriteExtended(b, retries, address, Some(payload), |payload|)
         == Step(0, b.(replies := b.replies[3..],
                       trace := b.trace + [Write(MacWriteFrame(address, payload)), Sleep(FlashWriteDelay),
                                           Write(MacSumFrame(address, payload)), Sleep(FlashWriteDelay),
                                           Read(RegControlStatus, 2)]))
  {
    assert payload[..|payload|] == payload;
    assert b.replies[1..][1..][1..] == b.replies[3..];
  }

  /**
   * The checksum/length frame seals the block it describes: address bytes,
   * payload and checksum sum to 0xFF modulo 256, and the length byte counts
   * the payload plus the two address bytes plus checksum and length.
   */
  lemma MacSumFrameSeals(address: u16, payload: seq<byte>)
    requires |payload| <= MacDataLen
    ensures var f := MacSumFrame(address, payload);
            Sum(Le16(address) + payload + [f[1]]) % 0x100 == 0xFF && f[2] == |payload| + 4
  {
    ChecksumSeals(Le16(address) + payload);
  }

  // ------------------------------------------------------------ extended-memory read

  /**
   * The 36-byte frame a device sends back for `data` stored at `address`:
   * the echoed address, the data, padding, then the checksum over address
   * and data and the length byte |data| + 4.
   */
  function DeviceFrame(address: u16, data: seq<byte>): (frame: seq<byte>)
    requires |data| <= MacDataLen
    ensures |frame| == MacCompleteLen
    ensures frame[..|data| + 2] == Le16(address) + data
  {
    var covered := Le16(address) + data;
    assert (covered + Zeros(MacDataLen - |data|) + [Checksum(covered), |data| + 4])[..|data| + 2] == covered;
    covered + Zeros(MacDataLen - |data|) + [Checksum(covered), |data| + 4]
  }

  /**
   * Round trip: a frame built by the device for `data` is accepted, and the
   * caller receives the data cut to its buffer length `len`.
   */
  lemma {:induction false} ParseDeviceFrame(address: u16, data: seq<byte>, len: nat)
    requires |data| <= MacDataLen
    ensures ParseMacFrame(DeviceFrame(address, data), address, len) == Accepted(data[..Min(|data|, len)])
  {
    var frame := DeviceFrame(address, data);
    var covered := Le16(address) + data;
    assert frame[35] == |data| + 4;
    assert frame[34] == Checksum(covered);
    assert frame[..|data| + 2] == covered;
    var count := Min(|data|, len);
    assert frame[2..2 + count] == data[..count] by {
      forall k | 0 <= k < count
        ensures frame[2 + k] == data[k]
      {
        assert frame[2 + k] == frame[..|data| + 2][2 + k];
      }
    }
  }

  /**
   * The validation of a read frame whose length byte keeps the C code
   * inside its buffer (4 to 38): it is accepted exactly when the echoed
   * address matches and byte 34 is the checksum of the first
   * `frame[35] - 2` bytes, and then yields min(frame[35] - 4, len) bytes
   * from offset 2.
   */
  lemma ParseMacFrameAccepts(frame: seq<byte>, address: u16, len: nat)
    requires |frame| == MacCompleteLen && 4 <= frame[35] <= 38
    ensures ParseMacFrame(frame, address, len).Accepted? <==>
            frame[0] == address % 0x100 && frame[1] == address / 0x100 &&
            frame[34] == Checksum(frame[..frame[35] - 2])
    ensures ParseMacFrame(frame, address, len).Accepted? ==>
            ParseMacFrame(frame, address, len).data == frame[2..2 + Min(frame[35] - 4, len)]
  {
  }

  /**
   * A read frame with a corrupted checksum byte is rejected, whatever the
   * rest of the frame holds.
   */
  lemma CorruptedChecksumRejected(address: u16, data: seq<byte>, len: nat, bad: byte)
    requires |data| <= MacDataLen && bad != DeviceFrame(address, data)[34]
    ensures ParseMacFrame(DeviceFrame(address, data)[34 := bad], address, len) == Rejected
  {
    var frame := DeviceFrame(address, data)[34 := bad];
    assert frame[..|data| + 2] == DeviceFrame(address, data)[..|data| + 2];
  }

  /** A read frame echoing another address is rejected. */
  lemma ForeignAddressRejected(address: u16, other: u16, data: seq<byte>, len: nat)
    requires |data| <= MacDataLen && other != address
    ensures ParseMacFrame(DeviceFrame(other, data), address, len) == Rejected
  {
    var frame := DeviceFrame(other, data);
    assert frame[..2] == Le16(other);
  }

  // ------------------------------------------------------------ extended-memory read

  /**
   * The guards of bq35100_read_extended_data (unknown mode, an address
   * outside the data-flash window, no destination) return -EINVAL, deliver
   * nothing and send nothing.
   */
  lemma ReadGuardsReject(b: Bus, retries: nat, address: u16, len: nat, dataPresent: bool)
    requires b.mode == Unknown || address < MacAddressLow || address > MacAddressHigh || !dataPresent
    ensures ReadExtended(b, retries, address, len, dataPresent) == Fetch(-EINVAL, [], b)
  {
  }

  /** On an unsealed or full-access device, a failed address write ends the read with -EINVAL. */
  lemma AddressWriteFailureRejected(b: Bus, retries: nat, address: u16, len: nat, writeRc: int, rest: seq<Reply>)
    requires b.mode == Unsealed || b.mode == FullAccess
    requires MacAddressLow <= address <= MacAddressHigh && writeRc != 0
    requires b.replies == [Reply(writeRc, [])] + rest
    ensures ReadExtended(b, retries, address, len, true) ==
            Fetch(-EINVAL, [], b.(replies := rest, trace := b.trace + [Write([RegMac] + Le16(address))]))
  {
    assert Consume(b.replies) == rest;
  }

  /**
   * On an unsealed or full-access device, a read writes the address to the
   * MAC register, reads the 36-byte frame back and hands over what the frame
   * validation yields: -EINVAL for a rejected frame; for an accepted one,
   * its data with the frame read's own return code, which is never checked
   * before the validation.
   */
  lemma UnsealedReadIsParse(b: Bus, retries: nat, address: u16, len: nat, frameRc: int, frame: seq<byte>, rest: seq<Reply>)
    requires b.mode == Unsealed || b.mode == FullAccess
    requires MacAddressLow <= address <= MacAddressHigh && |frame| == MacCompleteLen
    requires b.replies == [Reply(0, []), Reply(frameRc, frame)] + rest
    ensures var f := ReadExtended(b, retries, address, len, true);
            f.bus == b.(replies := rest, trace := b.trace + [Write([RegMac] + Le16(address)), Read(RegMac, MacCompleteLen)]) &&
            match ParseMacFrame(frame, address, len)
            case Rejected => f.rc == -EINVAL && f.data == []
            case Accepted(d) => f.rc == frameRc && f.data == d
  {
    assert Fit(frame, MacCompleteLen) == frame;
    assert Consume(b.replies) == [Reply(frameRc, frame)] + rest;
    assert Consume([Reply(frameRc, frame)] + rest) == rest;
  }

  /**
   * A failed frame read whose buffer still holds a valid device frame is
   * not caught: the data is delivered together with the read's error code.
   */
  lemma FailedFrameReadStillDelivers(b: Bus, retries: nat, address: u16, data: seq<byte>, len: nat, rest: seq<Reply>)
    requires b.mode == Unsealed || b.mode == FullAccess
    requires MacAddressLow <= address <= MacAddressHigh && |data| <= MacDataLen
    requires b.replies == [Reply(0, []), Reply(-EIO, DeviceFrame(address, data))] + rest
    ensures var f := ReadExtended(b, retries, address, len, true);
            f.rc == -EIO && f.data == data[..Min(|data|, len)]
  {
    UnsealedReadIsParse(b, retries, address, len, -EIO, DeviceFrame(address, data), rest);
    ParseDeviceFrame(address, data, len);
  }

  /**
   * Whatever the transfer returned, the entry mode is back whenever a read
   * reports success.
   */
  lemma ReadExtendedKeepsMode(b: Bus, retries: nat, address: u16, len: nat, dataPresent: bool)
    ensures var f := ReadExtended(b, retries, address, len, dataPresent);
            f.rc == 0 ==> f.bus.mode == b.mode
  {
  }

  /** Likewise for a write. */
  lemma WriteExtendedKeepsMode(b: Bus, retries: nat, address: u16, data: Option<seq<byte>>, len: nat)
    requires data.Some? ==> len <= |data.value|
    ensures var s := WriteExtended(b, retries, address, data, len);
            s.rc == 0 ==> s.bus.mode == b.mode
  {
  }

  /**
   * On a sealed device that could be unsealed, a read reports the result
   * of sealing the device again, not the result of the transfer itself: a
   * rejected frame followed by a successful reseal reports success.
   */
  lemma SealedReadReportsReseal(b: Bus, retries: nat, address: u16, len: nat)
    requires b.mode == Sealed && MacAddressLow <= address <= MacAddressHigh
    requires SetSecurityMode(b, retries, Unsealed).rc == 0
    ensures var t := ReadTransfer(SetSecurityMode(b, retries, Unsealed).bus, address, len);
            var r := SetSecurityMode(t.bus, retries, Sealed);
            ReadExtended(b, retries, address, len, true) == Fetch(r.rc, t.data, r.bus)
  {
  }

  /** The same for a write: the reseal's result replaces the transfer's. */
  lemma SealedWriteReportsReseal(b: Bus, retries: nat, address: u16, payload: seq<byte>)
    requires b.mode == Sealed && MacAddressLow <= address <= MacAddressHigh && 1 <= |payload| <= MacDataLen
    requires SetSecurityMode(b, retries, Unsealed).rc == 0
    ensures var t := WriteTransfer(SetSecurityMode(b, retries, Unsealed).bus, address, payload);
            WriteExtended(b, retries, address, Some(payload), |payload|) == SetSecurityMode(t.bus, retries, Sealed)
  {
    assert payload[..|payload|] == payload;
  }

  // ------------------------------------------------------------ security state machine

  /** Asking for the current mode succeeds with nothing sent. */
  lemma SameModeIsNoOp(b: Bus, retries: nat)
    ensures SetSecurityMode(b, retries, b.mode) == Step(0, b)
  {
  }

  /** Unknown is refused as a target, with nothing sent. */
  lemma UnknownTargetRejected(b: Bus, retries: nat)
    requires b.mode != Unknown
    ensures SetSecurityMode(b, retries, Unknown) == Step(-EINVAL, b)
  {
  }

  /** With no retries configured, a real transition fails with -EINVAL and nothing sent. */
  lemma NoRetriesNoTransition(b: Bus, target: SecurityMode)
    requires target != b.mode && target != Unknown
    ensures SetSecurityMode(b, 0, target) == Step(-EINVAL, b)
  {
  }

  /**
   * A transition runs its bus sequence once and then re-reads the mode from
   * the status bits: a failed step is returned as is, a mode that is not
   * the target gives -EIO, and the target gives 0. The verification read
   * always returns 0, so the loop never runs a second round.
   */
  lemma {:induction false} TransitionIsVerifiedOnce(b: Bus, retries: nat, target: SecurityMode)
    requires retries >= 1 && target != b.mode && target != Unknown
    ensures var a := TransitionAttempt(b, retries, target, [RegMac, 0, 0, 0]);
            var v := GetSecurityMode(a.bus);
            SetSecurityMode(b, retries, target)
            == if a.rc != 0 then Step(a.rc, a.bus)
               else if v.mode == target then Step(0, v)
               else Step(-EIO, v)
  {
    var buf: seq<byte> := [0, 0, 0, 0];
    assert buf[0 := RegMac] == [RegMac, 0, 0, 0];
    var a := TransitionAttempt(b, retries, target, [RegMac, 0, 0, 0]);
    var v := GetSecurityMode(a.bus);
    if a.rc == 0 && v.mode == target {
      assert SetModeLoop(v, retries, target, 1, 0, a.buf) == Step(0, v);
    }
  }

  /** The first key frame sent to unseal: the control register, then the upper half of the key, low byte first. */
  const UnsealKeyFirstFrame: seq<byte> :=
    [RegControlStatus, DefaultSealCodes / 0x1_0000 % 0x100, DefaultSealCodes / 0x100_0000 % 0x100]

  /** The frame of the SEALED control command. */
  const SealCommandFrame: seq<byte> := [RegControlStatus] + Le16(CmdSealed)

  /**
   * Full access from sealed goes through unsealed: the first frame on the
   * bus is the first half of the unseal key.
   */
  lemma {:induction false} SealedToFullAccessUnsealsFirst(b: Bus, retries: nat)
    requires b.mode == Sealed && retries >= 1
    ensures b.trace + [Write(UnsealKeyFirstFrame)] <= SetSecurityMode(b, retries, FullAccess).bus.trace
  {
    var buf: seq<byte> := [RegMac, 0, 0, 0];
    UnsealStartsWithKey(b, retries, buf);
    SetModeBeginsWithAttempt(b, retries, Unsealed);
    EnterFullAccessUnsealsFirst(b, retries, buf);
    SetModeBeginsWithAttempt(b, retries, FullAccess);
    assert TransitionAttempt(b, retries, FullAccess, buf) == EnterFullAccess(b, retries, buf);
  }

  /**
   * A real transition with retries left starts with one attempt on the
   * buffer whose first byte the loop has set to the MAC register.
   */
  lemma {:induction false} SetModeBeginsWithAttempt(b: Bus, retries: nat, target: SecurityMode)
    requires retries >= 1 && target != b.mode && target != Unknown
    ensures TransitionAttempt(b, retries, target, [RegMac, 0, 0, 0]).bus.trace
            <= SetSecurityMode(b, retries, target).bus.trace
  {
    var buf: seq<byte> := [RegMac, 0, 0, 0];
    assert [0, 0, 0, 0][0 := RegMac] == buf;
    var a := TransitionAttempt(b, retries, target, buf);
    if a.rc == 0 {
      var v := GetSecurityMode(a.bus);
      if v.mode == target {
        assert a.bus.trace <= v.trace <= SetModeLoop(v, retries, target, 1, 0, a.buf).bus.trace;
      }
    }
  }

  /** From sealed, the full-access case begins with a complete transition to unsealed. */
  lemma EnterFullAccessUnsealsFirst(b: Bus, retries: nat, buf: seq<byte>)
    requires b.mode == Sealed && |buf| == 4
    ensures SetSecurityMode(b, retries, Unsealed).bus.trace <= EnterFullAccess(b, retries, buf).bus.trace
  {
    var u := SetSecurityMode(b, retries, Unsealed);
    if u.rc == 0 {
      var r := ReadExtended(u.bus, retries, FlashFullAccessCodes, 4, true);
      if r.rc == 0 {
        var k := SendFullAccessKey(r.bus, Overwrite(buf, r.data));
        assert u.bus.trace <= r.bus.trace <= k.bus.trace;
      }
    }
  }

  /** The unsealed attempt from a sealed device starts with the first key frame. */
  lemma UnsealStartsWithKey(b: Bus, retries: nat, buf: seq<byte>)
    requires b.mode == Sealed && |buf| == 4
    ensures b.trace + [Write(UnsealKeyFirstFrame)] <= TransitionAttempt(b, retries, Unsealed, buf).bus.trace
  {
    var buf1 := buf[0 := RegControlStatus][2 := DefaultSealCodes / 0x100_0000 % 0x100]
                   [1 := DefaultSealCodes / 0x1_0000 % 0x100];
    assert buf1[..3] == UnsealKeyFirstFrame;
    var w1 := BusWrite(b, buf1[..3]);
    if w1.rc == 0 {
      var buf2 := buf1[2 := DefaultSealCodes / 0x100 % 0x100][1 := DefaultSealCodes % 0x100];
      assert w1.bus.trace <= BusWrite(BusSleep(w1.bus, FlashWriteDelay), buf2[..3]).bus.trace;
    }
  }

  /**
   * Unsealed from full access goes through sealed: the first frame on the
   * bus is the SEALED control command.
   */
  lemma {:induction false} FullAccessToUnsealedSealsFirst(b: Bus, retries: nat)
    requires b.mode == FullAccess && retries >= 1
    ensures b.trace + [Write(SealCommandFrame)] <= SetSecurityMode(b, retries, Unsealed).bus.trace
  {
    var buf: seq<byte> := [RegMac, 0, 0, 0];
    SetModeBeginsWithAttempt(b, retries, Sealed);
    assert TransitionAttempt(b, retries, Sealed, buf).bus.trace == b.trace + [Write(SealCommandFrame)];
    EnterUnsealedSealsFirst(b, retries, buf);
    SetModeBeginsWithAttempt(b, retries, Unsealed);
    assert TransitionAttempt(b, retries, Unsealed, buf) == EnterUnsealed(b, retries, buf);
  }

  /** From full access, the unsealed case begins with a complete transition to sealed. */
  lemma EnterUnsealedSealsFirst(b: Bus, retries: nat, buf: seq<byte>)
    requires b.mode == FullAccess && |buf| == 4
    ensures SetSecurityMode(b, retries, Sealed).bus.trace <= EnterUnsealed(b, retries, buf).bus.trace
  {
    var s := SetSecurityMode(b, retries, Sealed);
    if s.rc == 0 {
      var buf1 := buf[0 := RegControlStatus][2 := DefaultSealCodes / 0x100_0000 % 0x100]
                     [1 := DefaultSealCodes / 0x1_0000 % 0x100];
      var w1 := BusWrite(s.bus, buf1[..3]);
      if w1.rc == 0 {
        var buf2 := buf1[2 := DefaultSealCodes / 0x100 % 0x100][1 := DefaultSealCodes % 0x100];
        assert s.bus.trace <= w1.bus.trace <= BusWrite(BusSleep(w1.bus, FlashWriteDelay), buf2[..3]).bus.trace;
      }
    }
  }


  /**
   * The full-access key frames as the code sends them: read_extended_data
   * has overwritten the register byte with the key's first byte k0, so the
   * frames are [k0, k1, k0] and [k0, k3, k2] for the key bytes k0..k3.
   */
  lemma FullAccessKeyFrames(b: Bus, key: seq<byte>)
    requires |key| == 4 && b.replies != [] && b.replies[0].rc == 0
    ensures var k := SendFullAccessKey(b, key);
            k.bus.trace[..|b.trace| + 1] == b.trace + [Write([key[0], key[1], key[0]])] &&
            (|b.replies| >= 2 && b.replies[1].rc == 0 ==>
               k.bus.trace == b.trace + [Write([key[0], key[1], key[0]]), Write([key[0], key[3], key[2]])])
  {
    KeyBytes(key);
    var codes := BigEndianCodes(key);
    var buf2 := key[2 := codes / 0x100_0000 % 0x100][1 := codes / 0x1_0000 % 0x100];
    assert buf2[..3] == [key[0], key[1], key[0]];
    var w1 := BusWrite(b, buf2[..3]);
    assert w1.bus.trace == b.trace + [Write([key[0], key[1], key[0]])];
    if w1.rc == 0 {
      var buf3 := buf2[2 := codes / 0x100 % 0x100][1 := codes % 0x100];
      assert buf3[..3] == [key[0], key[3], key[2]];
      var w2 := BusWrite(w1.bus, buf3[..3]);
      assert w2.bus.trace[..|b.trace| + 1] == w1.bus.trace;
    }
  }

  /** The bytes the shifts and masks of the full-access case take out of the assembled key. */
  lemma KeyBytes(key: seq<byte>)
    requires |key| == 4
    ensures var codes := BigEndianCodes(key);
            codes / 0x100_0000 % 0x100 == key[0] && codes / 0x1_0000 % 0x100 == key[1] &&
            codes / 0x100 % 0x100 == key[2] && codes % 0x100 == key[3]
  {
    var k0, k1, k2, k3 := key[0] as int, key[1] as int, key[2] as int, key[3] as int;
    var codes := BigEndianCodes(key);
    var low := 0x1_0000 * k1 + 0x100 * k2 + k3;
    assert codes == 0x100_0000 * k0 + low && 0 <= low < 0x100_0000;
    assert codes / 0x100_0000 == k0;
    assert codes / 0x1_0000 == 0x100 * k0 + k1;
    assert (0x100 * k0 + k1) % 0x100 == k1;
    assert codes / 0x100 == 0x1_0000 * k0 + 0x100 * k1 + k2;
    assert (0x1_0000 * k0 + 0x100 * k1 + k2) % 0x100 == k2;
  }

  // ------------------------------------------------------------ status polling

  /**
   * The traffic of `n` unsuccessful polling rounds, each a 2-byte status
   * read followed by a sleep of `ms`; WaitGivesUp states the trace with it.
   */
  function Polls(n: nat, ms: nat): (t: seq<Event>)
    ensures |t| == 2 * n
  {
    if n == 0 then [] else [Read(RegControlStatus, 2), Sleep(ms)] + Polls(n - 1, ms)
  }

  /**
   * At any poll with rounds left, a successful status read ends the wait
   * with 0 after that one read, whatever the status says and however many
   * polls failed before it.
   */
  lemma WaitEndsOnSuccessfulRead(b: Bus, retries: nat, i: nat, answer: u16, expected: u16, mask: u16, ms: nat)
    requires i < retries && NextReply(b.replies).rc == 0
    ensures WaitLoop(b, retries, i, answer, expected, mask, ms) ==
            Step(0, b.(replies := Consume(b.replies), trace := b.trace + [Read(RegControlStatus, 2)]))
  {
  }

  /**
   * A failed first read compares the never-written status (0): a wait for
   * 0 under any mask then reports a match, 1.
   */
  lemma WaitReportsStaleMatch(b: Bus, retries: nat, mask: u16, ms: nat)
    requires retries >= 1 && NextReply(b.replies).rc != 0
    ensures WaitForStatus(b, retries, 0, mask, ms).rc == 1
  {
    assert And16(0, mask) == 0;
  }

  /**
   * When every status read fails and a non-zero pattern is awaited, the
   * wait polls all remaining rounds, sleeping after each, then gives up
   * with -EINVAL.
   */
  lemma {:induction false} WaitGivesUp(b: Bus, retries: nat, i: nat, expected: u16, mask: u16, ms: nat)
    requires i <= retries && expected != 0
    requires forall k :: 0 <= k < |b.replies| ==> b.replies[k].rc != 0
    ensures var s := WaitLoop(b, retries, i, 0, expected, mask, ms);
            s.rc == -EINVAL && s.bus.mode == b.mode && s.bus.trace == b.trace + Polls(retries - i, ms)
    decreases retries - i
  {
    assert And16(0, mask) == 0;
    if i < retries {
      var st := GetStatus(b);
      var next := BusSleep(st.bus, ms);
      assert next.trace == b.trace + [Read(RegControlStatus, 2), Sleep(ms)];
      WaitGivesUp(next, retries, i + 1, expected, mask, ms);
      assert Polls(retries - i, ms) == [Read(RegControlStatus, 2), Sleep(ms)] + Polls(retries - (i + 1), ms);
    }
  }

  // ------------------------------------------------------------ gauge commands

  /** Starting the gauge succeeds as soon as one status read succeeds, running bit set or not. */
  lemma StartGaugeIgnoresRunningBit(b: Bus, retries: nat)
    requires retries >= 1 && |b.replies| >= 2 && b.replies[0].rc == 0 && b.replies[1].rc == 0
    ensures StartGauge(b, retries).rc == 0
  {
  }

  /** Stopping the gauge reports 1 when the command went out but the status read failed. */
  lemma StopGaugeFailedPollReportsOne(b: Bus, retries: nat)
    requires retries >= 1 && |b.replies| >= 2 && b.replies[0].rc == 0 && b.replies[1].rc != 0
    ensures StopGauge(b, retries).rc == 1
  {
    assert And16(0, 1) == 0;
  }

  /** On an unsealed or full-access device, reset is one RESET command and reports 1. */
  lemma ResetSendsResetCommand(b: Bus, retries: nat)
    requires b.mode != Sealed && b.replies != [] && b.replies[0].rc == 0
    ensures Reset(b, retries)
         == Step(1, b.(replies := b.replies[1..], trace := b.trace + [Write([RegControlStatus] + Le16(CmdReset))]))
  {
  }

  /**
   * The design capacity goes to data flash big-endian: the first frame is
   * the MAC register, the flash address 0x41FE low byte first, then the
   * capacity high byte first.
   */
  lemma DesignCapacityIsBigEndian(b: Bus, retries: nat, capacity: u16)
    requires b.mode == Unsealed || b.mode == FullAccess
    ensures b.trace + [Write([RegMac, 0xFE, 0x41, capacity / 0x100, capacity % 0x100])]
            <= SetDesignCapacity(b, retries, capacity).bus.trace
  {
    WriteSendsFrameFirst(b, retries, FlashSetNewCapacity, Be16(capacity), 2);
    assert Be16(capacity)[..2] == Be16(capacity);
    assert MacWriteFrame(FlashSetNewCapacity, Be16(capacity))
        == [RegMac, 0xFE, 0x41, capacity / 0x100, capacity % 0x100];
  }

  /** A new battery is announced before its design capacity is written, after a 200 ms pause. */
  lemma NewBatteryAnnouncedFirst(b: Bus, retries: nat, capacity: u16)
    requires b.replies != [] && b.replies[0].rc == 0
    ensures b.trace + [Write([RegControlStatus] + Le16(CmdNewBattery)), Sleep(2 * FlashWriteDelay)]
            <= SetNewBattery(b, retries, capacity).bus.trace
  {
    var s := SendCntl(b, CmdNewBattery);
    var d := SetDesignCapacity(BusSleep(s.bus, 2 * FlashWriteDelay), retries, capacity);
    assert BusSleep(s.bus, 2 * FlashWriteDelay).trace <= d.bus.trace;
    assert d.bus.trace <= BusSleep(d.bus, NewBatteryDelay).trace;
  }

  // ------------------------------------------------------------ init

  /**
   * Init succeeds only on a BQ35100 whose first status read names a valid
   * security mode, and then the driver's mode is that one.
   */
  lemma InitSeedsModeFromStatus(b: Bus, retries: nat)
    ensures var s := Init(b, retries);
            var st := GetStatus(b);
            s.rc == 0 ==> st.rc == 0 && GetCntl(st.bus, CmdDeviceType) == Word(0, DeviceType, GetCntl(st.bus, CmdDeviceType).bus) &&
                          s.bus.mode == ModeOfBits(SecurityBits(st.value)) && s.bus.mode != Unknown
  {
  }

  /** A device answering with another device type is refused with -ENODEV. */
  lemma InitRejectsOtherDevice(b: Bus, retries: nat)
    requires GetStatus(b).rc == 0
    requires GetCntl(GetStatus(b).bus, CmdDeviceType).value != DeviceType
    ensures Init(b, retries).rc == -ENODEV
  {
  }

  // ------------------------------------------------------------ properties

  /** The remaining-capacity examples: half discharged, over-discharged, over-charged. */
  lemma RemainingCapacityExamples()
    ensures CalculateRemainingCapacity(2000, -500000) == 1500000
    ensures CalculateRemainingCapacity(2000, -5000000) == 0
    ensures CalculateRemainingCapacity(2000, 100000) == 2000000
    ensures StateOfCharge(2000, CalculateRemainingCapacity(2000, -1000000)) == 50
  {
  }

  /** Voltage round trip: the millivolts stored little-endian come back as microvolts. */
  lemma VoltageRoundTrip(mv: u16, rest: seq<byte>)
    requires |rest| == 4
    ensures ProcessProp(Voltage, Le16(mv) + rest) == Converted(mv * 1000)
  {
    assert GetLe16(Le16(mv) + rest, 0) == mv;
  }

  /**
   * Current is decoded unsigned: every 16-bit word stored little-endian
   * comes back as word * 1000, so a discharge current (the two's complement
   * of -c mA, a word of 0x8000 or more) reads as a large positive value;
   * 0xFF9C, which is -100 mA, gives 65,436,000 µA.
   */
  lemma CurrentIsUnsigned(ma: u16, rest: seq<byte>)
    requires |rest| == 4
    ensures ProcessProp(Current, Le16(ma) + rest) == Converted(ma * 1000)
    ensures ProcessProp(Current, [0x9C, 0xFF, 0, 0, 0, 0]) == Converted(65_436_000)
  {
    assert GetLe16(Le16(ma) + rest, 0) == ma;
  }

  /** The design capacity passes through: the stored mAh word comes back unchanged. */
  lemma DesignCapacityRoundTrip(mah: u16, rest: seq<byte>)
    requires |rest| == 4
    ensures ProcessProp(DesignCapacity, Le16(mah) + rest) == Converted(mah)
  {
    assert GetLe16(Le16(mah) + rest, 0) == mah;
  }

  /**
   * Round trip of the capacity buffer: the signed accumulated capacity
   * stored as a 32-bit two's-complement word, followed by the design
   * capacity, is decoded back to both values, so remaining capacity and
   * state of charge are the ones calculated from them.
   */
  lemma CapacityRoundTrip(accumulated: i32, design: u16)
    ensures var buffer := Le32(accumulated % 0x1_0000_0000) + Le16(design);
            var remaining := CalculateRemainingCapacity(design, accumulated);
            ProcessProp(RemainingCapacity, buffer) == Converted(remaining) &&
            ProcessProp(AbsoluteStateOfCharge, buffer) == Converted(StateOfCharge(design, remaining))
  {
    var word := Le32(accumulated % 0x1_0000_0000);
    var buffer := word + Le16(design);
    assert buffer[..4] == word;
    assert GetLe32(buffer, 0) == GetLe32(word, 0);
    assert GetLe16(buffer, 4) == design;
    assert AsI32(accumulated % 0x1_0000_0000) == WrapI32(accumulated) == accumulated;
  }

  /**
   * Remaining capacity lies between 0 and the design capacity in µAh, and
   * state of charge between 0 and 100, for every register content.
   */
  lemma CapacityReadingsBounded(buffer: seq<byte>)
    requires |buffer| == 6
    ensures var design := GetLe16(buffer, 4);
            match ProcessProp(RemainingCapacity, buffer)
            case Converted(v) => 0 <= v <= design * 1000
            case Unsupported => false
    ensures match ProcessProp(AbsoluteStateOfCharge, buffer)
            case Converted(v) => 0 <= v <= 100
            case Unsupported => false
  {
  }

  /**
   * A property without a data register is refused (-ENOTSUP, or -EINVAL
   * beyond the property range) with nothing on the bus.
   */
  lemma UnreadablePropertySendsNothing(b: Bus, prop: Property, buf: seq<byte>)
    requires |buf| == 6 && GetRegister(prop) == 0
    ensures var g := GetProp(b, prop, buf);
            g.bus == b && (g.rc == -ENOTSUP || g.rc == -EINVAL)
  {
  }

  /** A property with a data register is read from that register first. */
  lemma ReadablePropertyReadsItsRegister(b: Bus, prop: Property, buf: seq<byte>)
    requires |buf| == 6 && GetRegister(prop) != 0
    ensures exists n :: b.trace + [Read(GetRegister(prop) % 0x100, n)] <= GetProp(b, prop, buf).bus.trace
  {
    var n := if prop.RemainingCapacity? || prop.AbsoluteStateOfCharge? then 4 else 2;
    var r := BusRead(b, GetRegister(prop) % 0x100, n);
    assert r.bus.trace == b.trace + [Read(GetRegister(prop) % 0x100, n)];
    assert r.bus.trace <= GetProp(b, prop, buf).bus.trace;
  }

  /**
   * A voltage, current or design-capacity read makes one 2-byte read of the
   * property's register and returns the word on the bus, converted.
   */
  lemma WordPropertyReadsBus(b: Bus, prop: Property, buf: seq<byte>, word: u16, rest: seq<Reply>)
    requires |buf| == 6 && (prop.Voltage? || prop.Current? || prop.DesignCapacity?)
    requires b.replies == [Reply(0, Le16(word))] + rest
    ensures GetProp(b, prop, buf) ==
            Got(0, if prop.DesignCapacity? then word else word * 1000,
                b.(replies := rest, trace := b.trace + [Read(GetRegister(prop) % 0x100, 2)]))
  {
    assert Fit(Le16(word), 2) == Le16(word);
    assert Overwrite(buf, Le16(word)) == Le16(word) + buf[2..];
    assert Consume(b.replies) == rest;
    if prop.DesignCapacity? {
      DesignCapacityRoundTrip(word, buf[2..]);
    } else if prop.Current? {
      CurrentIsUnsigned(word, buf[2..]);
    } else {
      VoltageRoundTrip(word, buf[2..]);
    }
  }

  /**
   * Remaining capacity and state of charge read the 4-byte accumulated
   * capacity, and only after that read succeeds the 2-byte design capacity;
   * the buffer holds both replies in that order, and the result is the
   * second read's code.
   */
  lemma CapacityReadsTwoRegisters(b: Bus, prop: Property, buf: seq<byte>, rc: int, first: seq<byte>, second: seq<byte>, rest: seq<Reply>)
    requires |buf| == 6 && (prop.RemainingCapacity? || prop.AbsoluteStateOfCharge?)
    requires b.replies == [Reply(0, first), Reply(rc, second)] + rest
    ensures ReadRegisters(b, prop, buf) ==
            Fetch(rc, Fit(first, 4) + Fit(second, 2),
                  b.(replies := rest, trace := b.trace + [Read(RegAccumulatedCapacity, 4), Read(RegDesignCapacity, 2)]))
  {
    assert Consume(b.replies) == [Reply(rc, second)] + rest;
    assert Consume([Reply(rc, second)] + rest) == rest;
  }

  /**
   * When the device holds accumulated capacity `accumulated` and design
   * capacity `design`, a capacity property read returns the remaining
   * capacity, or the state of charge, calculated from them.
   */
  lemma CapacityPropertyReadsBus(b: Bus, prop: Property, buf: seq<byte>, accumulated: i32, design: u16, rest: seq<Reply>)
    requires |buf| == 6 && (prop.RemainingCapacity? || prop.AbsoluteStateOfCharge?)
    requires b.replies == [Reply(0, Le32(accumulated % 0x1_0000_0000)), Reply(0, Le16(design))] + rest
    ensures var remaining := CalculateRemainingCapacity(design, accumulated);
            GetProp(b, prop, buf) ==
            Got(0, if prop.RemainingCapacity? then remaining else StateOfCharge(design, remaining),
                b.(replies := rest, trace := b.trace + [Read(RegAccumulatedCapacity, 4), Read(RegDesignCapacity, 2)]))
  {
    var word := Le32(accumulated % 0x1_0000_0000);
    CapacityReadsTwoRegisters(b, prop, buf, 0, word, Le16(design), rest);
    assert Fit(word, 4) == word && Fit(Le16(design), 2) == Le16(design);
    CapacityRoundTrip(accumulated, design);
  }

  /** A failed first register read ends a property read with that read's code; nothing further is sent. */
  lemma FailedRegisterReadStops(b: Bus, prop: Property, buf: seq<byte>, rc: int, data: seq<byte>, rest: seq<Reply>)
    requires |buf| == 6 && GetRegister(prop) != 0 && rc != 0
    requires b.replies == [Reply(rc, data)] + rest
    ensures GetProp(b, prop, buf) ==
            Got(rc, 0, b.(replies := rest, trace := b.trace + [Read(GetRegister(prop) % 0x100, RegisterWidth(prop))]))
  {
    assert Consume(b.replies) == rest;
  }

  /** Only the design capacity and the four custom actions can be set; anything else is refused unsent. */
  lemma UnsettablePropertyRefused(b: Bus, retries: nat, prop: Property, value: u16)
    requires !(prop.DesignCapacity? || prop.BqNewBattery? || prop.BqReset? || prop.BqStart? || prop.BqStop?)
    ensures SetProp(b, retries, prop, value) == Step(-ENOTSUP, b)
  {
  }
}
