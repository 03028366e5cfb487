/**
 * Reference model of the BQ35100 fuel-gauge protocol engine.
 *
 * Every bus-level operation of the driver is a pure function from a `Bus`
 * value to its outcome and the new `Bus`. A `Bus` holds the driver's
 * security mode (the process-wide variable of the original driver), the
 * scripted replies of the transport still to be consumed, and the trace of
 * everything sent on the bus so far (writes, write-then-read transactions
 * and sleeps). The imperative driver (module Bq35100Driver) is proved to
 * follow these functions step by step; the properties of the protocol are
 * proved about them (module Bq35100Lemmas).
 */
module Bq35100Protocol {
  import opened ByteOrder
  import opened BlockChecksum
  import opened Errno

  // Standard command registers of the device.
  const RegControlStatus: byte := 0x00
  const RegAccumulatedCapacity: byte := 0x02
  const RegVoltage: byte := 0x08
  const RegCurrent: byte := 0x0C
  const RegDesignCapacity: byte := 0x3C
  const RegMac: byte := 0x3E
  const RegMacData: byte := 0x40
  const RegMacDataSum: byte := 0x60

  // Control sub-commands written to the control register.
  const CmdDeviceType: u16 := 0x0001
  const CmdGaugeStart: u16 := 0x0011
  const CmdGaugeStop: u16 := 0x0012
  const CmdSealed: u16 := 0x0020
  const CmdReset: u16 := 0x0041
  const CmdNewBattery: u16 := 0xA613

  // Data-flash addresses and keys.
  const FlashFullAccessCodes: u16 := 0x41D0
  const FlashSetNewCapacity: u16 := 0x41FE
  const DefaultSealCodes: u32 := 0x0414_3672

  const DeviceType: u16 := 0x0100
  const MacDataLen := 32
  const MacCompleteLen := 36
  const FlashWriteDelay := 100
  const NewBatteryDelay := 500
  const GaugePollInterval := 500
  const InitPollInterval := 300

  /** The extended-memory window accepted by the driver. */
  const MacAddressLow: u16 := 0x4000
  const MacAddressHigh: u16 := 0x43FF

  /** bq35100_security_t; the codes are the values of status bits 13-14. */
  datatype SecurityMode = Unknown | FullAccess | Unsealed | Sealed

  /** FIELD_GET(BIT_MASK(2) << 13, status): the security bits of a status word. */
  function SecurityBits(status: u16): (bits: int)
    ensures 0 <= bits < 4
  {
    (status / 0x2000) % 4
  }

  /** The mode named by a security-bit value; 0 (and anything else) names no valid mode. */
  function ModeOfBits(bits: int): SecurityMode
  {
    if bits == 1 then FullAccess
    else if bits == 2 then Unsealed
    else if bits == 3 then Sealed
    else Unknown
  }

  /** Ranking used to show that the transitions through intermediate modes terminate. */
  function Rank(m: SecurityMode): nat
  {
    match m
    case Unknown => 0
    case Sealed => 0
    case Unsealed => 1
    case FullAccess => 2
  }

  // ---------------------------------------------------------------- transport

  /** One transport transaction's outcome: its return code and, for a read, the bytes delivered. */
  datatype Reply = Reply(rc: int, data: seq<byte>)

  /** What the driver puts on the bus: a write, a register read of `count` bytes, or a sleep. */
  datatype Event = Write(frame: seq<byte>) | Read(register: byte, count: nat) | Sleep(ms: nat)

  datatype Bus = Bus(mode: SecurityMode, replies: seq<Reply>, trace: seq<Event>)

  /**
   * `after` is a later state of the same driver as `before`: the trace has
   * only grown, and a security mode once known is never forgotten.
   */
  predicate Follows(before: Bus, after: Bus)
  {
    before.trace <= after.trace && (before.mode != Unknown ==> after.mode != Unknown)
  }

  datatype Step = Step(rc: int, bus: Bus)
  datatype Fetch = Fetch(rc: int, data: seq<byte>, bus: Bus)
  datatype Word = Word(rc: int, value: u16, bus: Bus)

  /** The next scripted reply; an exhausted script behaves like a failing bus. */
  function NextReply(replies: seq<Reply>): Reply
  {
    if replies == [] then Reply(-EIO, []) else replies[0]
  }

  function Consume(replies: seq<Reply>): seq<Reply>
  {
    if replies == [] then [] else replies[1..]
  }

  /** The `n` bytes a read leaves in the destination buffer: the reply's data, cut or zero-padded. */
  function Fit(data: seq<byte>, n: nat): (r: seq<byte>)
    ensures |r| == n
    ensures forall i :: 0 <= i < n && i < |data| ==> r[i] == data[i]
  {
    if |data| >= n then data[..n] else data + Zeros(n - |data|)
  }

  /** bq35100_write: one bus write of a whole frame. */
  function BusWrite(b: Bus, frame: seq<byte>): (s: Step)
    ensures Follows(b, s.bus)
  {
    Step(NextReply(b.replies).rc, b.(replies := Consume(b.replies), trace := b.trace + [Write(frame)]))
  }

  /**
   * bq35100_get_data: write the register address, then read `count` bytes.
   * The buffer receives the reply's bytes whatever the return code, so a
   * caller that ignores the code sees whatever the buffer holds.
   */
  function BusRead(b: Bus, register: byte, count: nat): (f: Fetch)
    ensures |f.data| == count
    ensures Follows(b, f.bus)
  {
    var reply := NextReply(b.replies);
    Fetch(reply.rc, Fit(reply.data, count),
          b.(replies := Consume(b.replies), trace := b.trace + [Read(register, count)]))
  }

  /** k_sleep, kept as a trace event only. */
  function BusSleep(b: Bus, ms: nat): (r: Bus)
    ensures Follows(b, r)
  {
    b.(trace := b.trace + [Sleep(ms)])
  }

  // ---------------------------------------------------------------- control / status

  /** bq35100_send_cntl: the opcode, little-endian, written to the control register. */
  function SendCntl(b: Bus, opcode: u16): (s: Step)
    ensures Follows(b, s.bus)
  {
    BusWrite(b, [RegControlStatus] + Le16(opcode))
  }

  /** bq35100_get_status: two bytes read from the control register, little-endian. */
  function GetStatus(b: Bus): (w: Word)
    ensures w.bus.mode == b.mode && Follows(b, w.bus)
  {
    var f := BusRead(b, RegControlStatus, 2);
    if f.rc != 0 then Word(f.rc, 0, f.bus) else Word(0, GetLe16(f.data, 0), f.bus)
  }

  /**
   * bq35100_get_cntl: send the opcode, read the control register, then read
   * the response from the MAC data register.
   */
  function GetCntl(b: Bus, opcode: u16): (w: Word)
    ensures w.bus.mode == b.mode && Follows(b, w.bus)
  {
    var s := SendCntl(b, opcode);
    if s.rc != 0 then Word(s.rc, 0, s.bus)
    else
      var f := BusRead(s.bus, RegControlStatus, 2);
      if f.rc != 0 then Word(f.rc, 0, f.bus)
      else
        var g := BusRead(f.bus, RegMacData, 2);
        if g.rc != 0 then Word(g.rc, 0, g.bus) else Word(0, GetLe16(g.data, 0), g.bus)
  }

  /**
   * bq35100_wait_for_status from attempt `i` on. `answer` is the status
   * variable the loop compares; it is only written by a successful status
   * read, and a successful read returns 0 at once, so the comparison always
   * sees its initial value.
   */
  function WaitLoop(b: Bus, retries: nat, i: nat, answer: u16, expected: u16, mask: u16, ms: nat): (s: Step)
    ensures s.rc == 0 || s.rc == 1 || s.rc == -EINVAL
    ensures s.bus.mode == b.mode && Follows(b, s.bus)
    decreases retries - i
  {
    if i >= retries then Step(-EINVAL, b)
    else
      var st := GetStatus(b);
      if st.rc == 0 then Step(0, st.bus)
      else if And16(answer, mask) == expected then Step(1, st.bus)
      else WaitLoop(BusSleep(st.bus, ms), retries, i + 1, answer, expected, mask, ms)
  }

  /** bq35100_wait_for_status; the uninitialised `answer` is taken to start at 0. */
  function WaitForStatus(b: Bus, retries: nat, expected: u16, mask: u16, ms: nat): (s: Step)
    ensures s.rc == 0 || s.rc == 1 || s.rc == -EINVAL
    ensures s.bus.mode == b.mode && Follows(b, s.bus)
  {
    WaitLoop(b, retries, 0, 0, expected, mask, ms)
  }

  /**
   * bq35100_get_security_mode: reads the status twice and keeps the second
   * reading. It always returns 0 (SECURITY_UNKNOWN); the mode is updated only
   * when the second read succeeds and its bits name a valid mode.
   */
  function GetSecurityMode(b: Bus): (r: Bus)
    ensures Follows(b, r)
  {
    var first := GetStatus(b);
    var second := GetStatus(first.bus);
    if second.rc != 0 then second.bus
    else
      var m := ModeOfBits(SecurityBits(second.value));
      if m == Unknown then second.bus else second.bus.(mode := m)
  }

  // ---------------------------------------------------------------- extended memory

  /** The first write of an extended-memory write: register, address (little-endian), payload. */
  function MacWriteFrame(address: u16, payload: seq<byte>): seq<byte>
  {
    [RegMac] + Le16(address) + payload
  }

  /** The second write: the checksum over address and payload, then the length byte len + 4. */
  function MacSumFrame(address: u16, payload: seq<byte>): seq<byte>
    requires |payload| <= MacDataLen
  {
    [RegMacDataSum, Checksum(Le16(address) + payload), |payload| + 4]
  }

  /** Outcome of validating a 36-byte MAC read frame. */
  datatype Parsed = Accepted(data: seq<byte>) | Rejected

  /**
   * The validation part of bq35100_read_extended_data: the echoed address,
   * then the checksum over the first `frame[35] - 2` bytes, then the data
   * length `frame[35] - 4` (both computed in size_t) clamped to `len`.
   * A length byte that would make the C code read or copy outside its
   * 36-byte buffer is rejected here.
   */
  function ParseMacFrame(frame: seq<byte>, address: u16, len: nat): (p: Parsed)
    requires |frame| == MacCompleteLen
  {
    if frame[0] != address % 0x100 || frame[1] != address / 0x100 then Rejected
    else
      var covered := SizeT(frame[35] as int - 2);
      if covered > MacCompleteLen then Rejected
      else if frame[34] != Checksum(frame[..covered]) then Rejected
      else
        var available := SizeT(frame[35] as int - 4);
        var count := if available > len then len else available;
        if 2 + count > MacCompleteLen then Rejected
        else Accepted(frame[2..2 + count])
  }

  /** memcpy of `data` over the start of `buf`. */
  function Overwrite(buf: seq<byte>, data: seq<byte>): (r: seq<byte>)
    requires |data| <= |buf|
    ensures |r| == |buf|
  {
    data + buf[|data|..]
  }

  /**
   * bq35100_read_extended_data(address, data, len). `dataPresent` is false
   * for a null destination. On exit a mode changed by the implicit unseal is
   * restored, and the restoration's result replaces the read's.
   */
  function ReadExtended(b: Bus, retries: nat, address: u16, len: nat, dataPresent: bool): (f: Fetch)
    ensures |f.data| <= len
    ensures Follows(b, f.bus)
    decreases 2, 0, 0
  {
    if b.mode == Unknown then Fetch(-EINVAL, [], b)
    else if address < MacAddressLow || address > MacAddressHigh || !dataPresent then Fetch(-EINVAL, [], b)
    else
      var u := if b.mode == Sealed then SetSecurityMode(b, retries, Unsealed) else Step(0, b);
      if u.rc != 0 then Fetch(-EINVAL, [], u.bus)
      else
        var t := ReadTransfer(u.bus, address, len);
        if b.mode != t.bus.mode then
          var s := SetSecurityMode(t.bus, retries, b.mode);
          Fetch(s.rc, t.data, s.bus)
        else t
  }

  /**
   * The bus part of bq35100_read_extended_data: write the address to the MAC
   * register, read the 36-byte frame back, validate it. On success the
   * result is the read's own return code, which the driver never checked.
   */
  function ReadTransfer(b: Bus, address: u16, len: nat): (f: Fetch)
    ensures f.bus.mode == b.mode && Follows(b, f.bus)
    ensures |f.data| <= len
  {
    var s := BusWrite(b, [RegMac] + Le16(address));
    if s.rc != 0 then Fetch(-EINVAL, [], s.bus)
    else ReceiveMacFrame(s.bus, address, len)
  }

  /** Reading the 36-byte MAC frame back and validating it. */
  function ReceiveMacFrame(b: Bus, address: u16, len: nat): (f: Fetch)
    ensures f.bus.mode == b.mode && Follows(b, f.bus)
    ensures |f.data| <= len
  {
    var r := BusRead(b, RegMac, MacCompleteLen);
    match ParseMacFrame(r.data, address, len)
    case Rejected => Fetch(-EINVAL, [], r.bus)
    case Accepted(d) => Fetch(r.rc, d, r.bus)
  }

  /**
   * bq35100_write_extended_data(address, data, len); `data` is None for a
   * null pointer. A guard failure returns `false`, that is 0.
   */
  function WriteExtended(b: Bus, retries: nat, address: u16, data: Option<seq<byte>>, len: nat): (s: Step)
    requires data.Some? ==> len <= |data.value|
    ensures Follows(b, s.bus)
  {
    if b.mode == Unknown then Step(0, b)
    else if address < MacAddressLow || address > MacAddressHigh || len < 1 || len > MacDataLen || data.None? then
      Step(0, b)
    else
      var u := if b.mode == Sealed then SetSecurityMode(b, retries, Unsealed) else Step(0, b);
      if u.rc != 0 then Step(-EINVAL, u.bus)
      else
        var t := WriteTransfer(u.bus, address, data.value[..len]);
        if b.mode != t.bus.mode then SetSecurityMode(t.bus, retries, b.mode) else t
  }

  /**
   * The bus part of bq35100_write_extended_data: the framed write, a settle
   * delay, the checksum/length write, a settle delay, then a status read.
   * Status bit 15 (write failed) leads to the exit with the result still 0.
   */
  function WriteTransfer(b: Bus, address: u16, payload: seq<byte>): (s: Step)
    requires |payload| <= MacDataLen
    ensures s.bus.mode == b.mode && Follows(b, s.bus)
  {
    var w1 := BusWrite(b, MacWriteFrame(address, payload));
    if w1.rc != 0 then w1
    else
      var w2 := BusWrite(BusSleep(w1.bus, FlashWriteDelay), MacSumFrame(address, payload));
      if w2.rc != 0 then w2
      else
        var st := GetStatus(BusSleep(w2.bus, FlashWriteDelay));
        if st.rc != 0 then Step(st.rc, st.bus)
        else Step(0, st.bus)
  }

  datatype Option<T> = None | Some(value: T)

  // ---------------------------------------------------------------- security state machine

  /**
   * bq35100_set_security_mode. A request for the current mode is a no-op,
   * Unknown is refused, otherwise the retry loop runs with result -EINVAL.
   */
  function SetSecurityMode(b: Bus, retries: nat, target: SecurityMode): (s: Step)
    ensures s.rc == 0 ==> s.bus.mode == target
    ensures Follows(b, s.bus)
    decreases Rank(target), 2, 0
  {
    if target == b.mode then Step(0, b)
    else if target == Unknown then Step(-EINVAL, b)
    else SetModeLoop(b, retries, target, 0, -EINVAL, [0, 0, 0, 0])
  }

  /**
   * The retry loop of bq35100_set_security_mode from iteration `i`, with the
   * current `result` and the 4-byte local `buf`. Each iteration resets
   * buf[0] to the MAC register, performs the transition's bus sequence and
   * re-reads the mode; a mismatch returns -EIO.
   */
  function SetModeLoop(b: Bus, retries: nat, target: SecurityMode, i: nat, result: int, buf: seq<byte>): (s: Step)
    requires |buf| == 4
    requires result == 0 ==> b.mode == target
    ensures s.rc == 0 ==> s.bus.mode == target
    ensures Follows(b, s.bus)
    decreases Rank(target), 1, retries - i
  {
    if !(i < retries && result != 0) then Step(result, b)
    else
      var a := TransitionAttempt(b, retries, target, buf[0 := RegMac]);
      if a.rc != 0 then Step(a.rc, a.bus)
      else
        var v := GetSecurityMode(a.bus);
        if v.mode == target then SetModeLoop(v, retries, target, i + 1, 0, a.buf)
        else Step(-EIO, v)
  }

  datatype Attempt = Attempt(rc: int, buf: seq<byte>, bus: Bus)

  /**
   * The switch inside the retry loop: the bus sequence for one transition.
   * A non-zero `rc` is returned by bq35100_set_security_mode at once.
   */
  function TransitionAttempt(b: Bus, retries: nat, target: SecurityMode, buf: seq<byte>): (a: Attempt)
    requires |buf| == 4
    ensures |a.buf| == 4
    ensures Follows(b, a.bus)
    decreases Rank(target), 1, 0
  {
    match target
    case Sealed =>
      var s := SendCntl(b, CmdSealed);
      Attempt(s.rc, buf, s.bus)
    case FullAccess => EnterFullAccess(b, retries, buf)
    case Unsealed => EnterUnsealed(b, retries, buf)
    case Unknown => Attempt(0, buf, b)
  }

  /**
   * The full-access case: unseal first when sealed, read the 4-byte
   * full-access key from data flash into the buffer (which overwrites the
   * register byte buf[0] too), then send the key in two 3-byte writes.
   */
  function EnterFullAccess(b: Bus, retries: nat, buf: seq<byte>): (a: Attempt)
    requires |buf| == 4
    ensures |a.buf| == 4
    ensures Follows(b, a.bus)
    decreases Rank(FullAccess), 0, 1
  {
    var u := if b.mode == Sealed then SetSecurityMode(b, retries, Unsealed) else Step(0, b);
    if u.rc != 0 then Attempt(u.rc, buf, u.bus)
    else
      var r := ReadExtended(u.bus, retries, FlashFullAccessCodes, 4, true);
      var buf1 := Overwrite(buf, r.data);
      if r.rc != 0 then Attempt(r.rc, buf1, r.bus)
      else SendFullAccessKey(r.bus, buf1)
  }

  /**
   * The two key writes of the full-access case: the key held big-endian in
   * `buf` is sent as buf[0] followed by two of its bytes, low byte first,
   * upper half then lower half.
   */
  function SendFullAccessKey(b: Bus, buf: seq<byte>): (a: Attempt)
    requires |buf| == 4
    ensures |a.buf| == 4
    ensures Follows(b, a.bus)
  {
    var codes := BigEndianCodes(buf);
    var buf2 := buf[2 := codes / 0x100_0000 % 0x100][1 := codes / 0x1_0000 % 0x100];
    var w1 := BusWrite(b, buf2[..3]);
    if w1.rc != 0 then Attempt(w1.rc, buf2, w1.bus)
    else
      var buf3 := buf2[2 := codes / 0x100 % 0x100][1 := codes % 0x100];
      var w2 := BusWrite(w1.bus, buf3[..3]);
      Attempt(w2.rc, buf3, w2.bus)
  }

  /**
   * The unsealed case: seal first when in full access, then send the
   * default unseal key to the control register in two 3-byte writes with
   * a flash-write delay between them.
   */
  function EnterUnsealed(b: Bus, retries: nat, buf: seq<byte>): (a: Attempt)
    requires |buf| == 4
    ensures |a.buf| == 4
    ensures Follows(b, a.bus)
    decreases Rank(Unsealed), 0, 1
  {
    var s := if b.mode == FullAccess then SetSecurityMode(b, retries, Sealed) else Step(0, b);
    if s.rc != 0 then Attempt(s.rc, buf, s.bus)
    else
      var buf1 := buf[0 := RegControlStatus][2 := DefaultSealCodes / 0x100_0000 % 0x100]
                     [1 := DefaultSealCodes / 0x1_0000 % 0x100];
      var w1 := BusWrite(s.bus, buf1[..3]);
      if w1.rc != 0 then Attempt(w1.rc, buf1, w1.bus)
      else
        var buf2 := buf1[2 := DefaultSealCodes / 0x100 % 0x100][1 := DefaultSealCodes % 0x100];
        var w2 := BusWrite(BusSleep(w1.bus, FlashWriteDelay), buf2[..3]);
        Attempt(w2.rc, buf2, w2.bus)
  }

  /** The uint32 full-access code assembled big-endian from the four buffer bytes. */
  function BigEndianCodes(buf: seq<byte>): u32
    requires |buf| == 4
  {
    0x100_0000 * (buf[0] as int) + 0x1_0000 * (buf[1] as int) + 0x100 * (buf[2] as int) + buf[3] as int
  }

  // ---------------------------------------------------------------- gauge commands

  /** bq35100_set_design_capacity: the capacity, big-endian, written to the design-capacity flash word. */
  function SetDesignCapacity(b: Bus, retries: nat, capacity: u16): (s: Step)
    ensures Follows(b, s.bus)
  {
    WriteExtended(b, retries, FlashSetNewCapacity, Some(Be16(capacity)), 2)
  }

  /** bq35100_start_gauge: GAUGE_START, then wait for status bit 0 set. */
  function StartGauge(b: Bus, retries: nat): (s: Step)
    ensures Follows(b, s.bus)
  {
    var s := SendCntl(b, CmdGaugeStart);
    if s.rc != 0 then s
    else
      var w := WaitForStatus(s.bus, retries, 1, 1, GaugePollInterval);
      if w.rc != 0 then w else Step(0, w.bus)
  }

  /** bq35100_stop_gauge: GAUGE_STOP, then wait for status bit 0 clear. */
  function StopGauge(b: Bus, retries: nat): (s: Step)
    ensures Follows(b, s.bus)
  {
    var s := SendCntl(b, CmdGaugeStop);
    if s.rc != 0 then s
    else
      var w := WaitForStatus(s.bus, retries, 0, 1, GaugePollInterval);
      if w.rc != 0 then w else Step(0, w.bus)
  }

  /** bq35100_set_new_battery: NEW_BATTERY, a settle delay, the design capacity, a longer delay. */
  function SetNewBattery(b: Bus, retries: nat, capacity: u16): (s: Step)
    ensures Follows(b, s.bus)
  {
    var s := SendCntl(b, CmdNewBattery);
    if s.rc != 0 then s
    else
      var d := SetDesignCapacity(BusSleep(s.bus, 2 * FlashWriteDelay), retries, capacity);
      if d.rc != 0 then d else Step(0, BusSleep(d.bus, NewBatteryDelay))
  }

  /** bq35100_reset: unseal if sealed, then RESET; success returns `true`, that is 1. */
  function Reset(b: Bus, retries: nat): (s: Step)
    ensures s.rc == 1 || s.rc == -EINVAL
    ensures Follows(b, s.bus)
  {
    var u := if b.mode == Sealed then SetSecurityMode(b, retries, Unsealed) else Step(0, b);
    if u.rc != 0 then Step(-EINVAL, u.bus)
    else
      var s := SendCntl(u.bus, CmdReset);
      if s.rc != 0 then Step(-EINVAL, s.bus) else Step(1, s.bus)
  }

  /**
   * bq35100_init without the bus-readiness check: read the status, check the
   * device type, seed the security mode from status bits 13-14, and wait for
   * the init-complete bit (7) when it is not yet set.
   */
  function Init(b: Bus, retries: nat): (s: Step)
    ensures s.rc == 0 || s.rc == -ENODEV
    ensures s.rc == 0 ==> s.bus.mode != Unknown
    ensures Follows(b, s.bus)
  {
    var st := GetStatus(b);
    if st.rc != 0 then Step(-ENODEV, st.bus)
    else
      var dt := GetCntl(st.bus, CmdDeviceType);
      if dt.rc != 0 || dt.value != DeviceType then Step(-ENODEV, dt.bus)
      else
        var m := ModeOfBits(SecurityBits(st.value));
        if m == Unknown then Step(-ENODEV, dt.bus)
        else
          var seeded := dt.bus.(mode := m);
          if !Bit(st.value, 7) then
            var w := WaitForStatus(seeded, retries, 0x80, 0x80, InitPollInterval);
            if w.rc != 0 then Step(-ENODEV, w.bus) else Step(0, w.bus)
          else Step(0, seeded)
  }
}
