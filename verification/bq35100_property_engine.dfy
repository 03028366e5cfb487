/**
 * The BQ35100 property engine: which registers back each fuel-gauge
 * property, how their raw bytes become physical units, and how property
 * reads and writes are dispatched onto the protocol of Bq35100Protocol.
 */
module Bq35100PropertyEngine {
  import opened ByteOrder
  import opened Errno
  import opened Bq35100Protocol

  /**
   * fuel_gauge_prop_t as far as this driver distinguishes it. `Other(id)`
   * stands for a property id that is none of the named ones; the only thing
   * the driver asks of it is whether it lies beyond FUEL_GAUGE_PROP_MAX.
   */
  datatype Property =
    | Voltage
    | Current
    | DesignCapacity
    | RemainingCapacity
    | AbsoluteStateOfCharge
    | BqNewBattery
    | BqReset
    | BqStart
    | BqStop
    | Other(id: nat)

  /** FUEL_GAUGE_PROP_MAX (UINT16_MAX). */
  const PropMax := 0xFFFF

  /**
   * calculate_remaining_capacity: design capacity (mAh) times 1000 plus the
   * signed accumulated capacity (µAh, negative while discharging), clamped
   * to [0, design * 1000] in 64-bit arithmetic, then cast to int32_t.
   */
  function CalculateRemainingCapacity(design: i32, accumulated: i32): (r: i32)
    ensures 0 <= design * 1000 < 0x8000_0000 ==> 0 <= r <= design * 1000
    ensures 0 <= design * 1000 < 0x8000_0000 && 0 <= design * 1000 + accumulated <= design * 1000 ==>
              r == design * 1000 + accumulated
    ensures 0 <= design * 1000 < 0x8000_0000 && design * 1000 + accumulated < 0 ==> r == 0
    ensures 0 <= design * 1000 < 0x8000_0000 && accumulated > 0 ==> r == design * 1000
  {
    var designUah := design * 1000;
    var remaining := designUah + accumulated;
    var clamped := if remaining < 0 then 0 else if remaining > designUah then designUah else remaining;
    WrapI32(clamped)
  }

  /**
   * The state-of-charge branch of bq35100_process_prop: 0 when the design
   * capacity is not positive, otherwise remaining * 100 / (design * 1000)
   * with C division, clamped to [0, 100].
   */
  function StateOfCharge(design: i32, remaining: i32): (soc: int)
    ensures 0 <= soc <= 100
    ensures design <= 0 ==> soc == 0
    ensures design > 0 && 0 <= remaining <= design * 1000 ==>
              soc * (design * 1000) <= remaining * 100 < (soc + 1) * (design * 1000)
  {
    if design <= 0 then 0
    else
      var soc := CDiv(remaining * 100, design * 1000);
      var clamped := if soc < 0 then 0 else if soc > 100 then 100 else soc;
      if 0 <= remaining <= design * 1000 then PercentOf(remaining, design * 1000); clamped else clamped
  }

  /** Integer division of a percentage: the quotient is its floor and, for a fraction of at most one, at most 100. */
  lemma {:induction false} PercentOf(r: int, d: int)
    requires d > 0 && 0 <= r <= d
    ensures 0 <= (r * 100) / d <= 100
    ensures ((r * 100) / d) * d <= r * 100 < ((r * 100) / d + 1) * d
  {
    var n := r * 100;
    var q := n / d;
    var m := n % d;
    assert n == q * d + m && 0 <= m < d;
    assert (q + 1) * d == q * d + d;
    ScaleMonotone(r, d, 100);
    if q > 100 {
      ScaleMonotone(101, q, d);
    }
  }

  lemma ScaleMonotone(a: int, b: int, k: int)
    requires a <= b && k >= 0
    ensures a * k <= b * k
  {
  }

  /** Outcome of bq35100_process_prop: a value in the API's units, or -ENOTSUP. */
  datatype Conversion = Converted(value: int) | Unsupported

  /** (int32_t)(raw * 1000U): milli-units to micro-units in uint32_t arithmetic. */
  function MilliToMicro(raw: u16): i32
  {
    AsI32((raw * 1000) % 0x1_0000_0000)
  }

  /**
   * bq35100_process_prop on the 6-byte register buffer: voltage and current
   * are read as unsigned 16-bit milli-units and scaled by 1000; the design
   * capacity passes through; remaining capacity and state of charge decode a
   * signed 32-bit accumulated capacity and a 16-bit design capacity.
   */
  function ProcessProp(prop: Property, buffer: seq<byte>): (c: Conversion)
    requires |buffer| == 6
    ensures c.Converted? <==> GetRegister(prop) != 0
    ensures prop.RemainingCapacity? ==> 0 <= c.value <= GetLe16(buffer, 4) * 1000
    ensures prop.AbsoluteStateOfCharge? ==> 0 <= c.value <= 100
    ensures prop.Voltage? || prop.Current? ==> c.value == GetLe16(buffer, 0) * 1000
  {
    match prop
    case Voltage => Converted(MilliToMicro(GetLe16(buffer, 0)))
    case Current => Converted(MilliToMicro(GetLe16(buffer, 0)))
    case DesignCapacity => Converted(GetLe16(buffer, 0))
    case RemainingCapacity | AbsoluteStateOfCharge =>
      var accumulated := AsI32(GetLe32(buffer, 0));
      var design := GetLe16(buffer, 4);
      var remaining := CalculateRemainingCapacity(design, accumulated);
      if prop == RemainingCapacity then Converted(remaining)
      else Converted(StateOfCharge(design, remaining))
    case _ => Unsupported
  }

  /** bq35100_get_register: the data register of a readable property, 0 for any other. */
  function GetRegister(prop: Property): (reg: u16)
    ensures reg == 0 <==> !(prop.Voltage? || prop.Current? || prop.DesignCapacity? ||
                            prop.RemainingCapacity? || prop.AbsoluteStateOfCharge?)
  {
    match prop
    case Voltage => RegVoltage
    case Current => RegCurrent
    case DesignCapacity => RegDesignCapacity
    case RemainingCapacity | AbsoluteStateOfCharge => RegAccumulatedCapacity
    case _ => 0
  }

  /** The width of the first register read for a property: the accumulated capacity is 32 bits, the rest 16. */
  function RegisterWidth(prop: Property): nat
  {
    if prop.RemainingCapacity? || prop.AbsoluteStateOfCharge? then 4 else 2
  }

  /**
   * bq35100_read_registers into the 6-byte buffer `buf`: two bytes for
   * voltage, current and design capacity; four bytes of accumulated capacity
   * followed, when that read succeeds, by two bytes of design capacity.
   */
  function ReadRegisters(b: Bus, prop: Property, buf: seq<byte>): (f: Fetch)
    requires |buf| == 6
    ensures |f.data| == 6
    ensures f.bus.mode == b.mode && Follows(b, f.bus)
    ensures GetRegister(prop) == 0 ==> f == Fetch(-ENOTSUP, buf, b)
    ensures GetRegister(prop) != 0 ==>
              |f.bus.trace| > |b.trace| && f.bus.trace[|b.trace|] == Read(GetRegister(prop) % 0x100, RegisterWidth(prop))
    ensures (prop.RemainingCapacity? || prop.AbsoluteStateOfCharge?) && f.rc == 0 ==>
              f.bus.trace == b.trace + [Read(RegAccumulatedCapacity, 4), Read(RegDesignCapacity, 2)]
  {
    match prop
    case Voltage | Current | DesignCapacity =>
      var r := BusRead(b, GetRegister(prop) % 0x100, 2);
      Fetch(r.rc, Overwrite(buf, r.data), r.bus)
    case RemainingCapacity | AbsoluteStateOfCharge =>
      var r := BusRead(b, RegAccumulatedCapacity, 4);
      if r.rc == 0 then
        var d := BusRead(r.bus, RegDesignCapacity, 2);
        Fetch(d.rc, r.data + d.data, d.bus)
      else Fetch(r.rc, Overwrite(buf, r.data), r.bus)
    case _ => Fetch(-ENOTSUP, buf, b)
  }

  datatype Got = Got(rc: int, value: int, bus: Bus)

  /**
   * bq35100_get_prop with a 6-byte buffer whose initial contents are `buf`:
   * an id at or beyond FUEL_GAUGE_PROP_MAX is refused, otherwise the
   * registers are read and, on success, converted.
   */
  function GetProp(b: Bus, prop: Property, buf: seq<byte>): (g: Got)
    requires |buf| == 6
    ensures g.bus.mode == b.mode && Follows(b, g.bus)
    ensures g.rc == 0 ==> GetRegister(prop) != 0
    ensures GetRegister(prop) == 0 ==> g.bus == b && g.rc != 0
    ensures prop.AbsoluteStateOfCharge? && g.rc == 0 ==> 0 <= g.value <= 100
  {
    if prop.Other? && prop.id >= PropMax then Got(-EINVAL, 0, b)
    else
      var r := ReadRegisters(b, prop, buf);
      if r.rc != 0 then Got(r.rc, 0, r.bus)
      else
        match ProcessProp(prop, r.data)
        case Converted(v) => Got(0, v, r.bus)
        case Unsupported => Got(-ENOTSUP, 0, r.bus)
  }

  /** bq35100_set_prop: the writable properties and the driver's custom actions. */
  function SetProp(b: Bus, retries: nat, prop: Property, designCap: u16): (s: Step)
    ensures Follows(b, s.bus)
  {
    match prop
    case DesignCapacity => SetDesignCapacity(b, retries, designCap)
    case BqNewBattery => SetNewBattery(b, retries, designCap)
    case BqReset => Reset(b, retries)
    case BqStart => StartGauge(b, retries)
    case BqStop => StopGauge(b, retries)
    case _ => Step(-ENOTSUP, b)
  }
}
