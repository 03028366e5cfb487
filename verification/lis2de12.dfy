/**
 * The configuration and read-out core of the LIS2DE12 3-axis accelerometer
 * driver: the output-data-rate and full-scale lookups over the driver's
 * constant tables, the setters that record the chosen configuration in the
 * driver data, the die-temperature conversion, and the channel dispatch of
 * sample_fetch and channel_get.
 *
 * The ST register HAL (lis2de12_full_scale_set, lis2de12_data_rate_set,
 * lis2de12_acceleration_raw_get, lis2de12_temperature_raw_get) is not part
 * of this model: each call is represented by the status it returns and,
 * for the raw getters, the values it writes into the driver data.
 */
module Lis2de12 {
  import opened ByteOrder
  import opened Errno

  type i16 = x: int | -0x8000 <= x < 0x8000

  /** lis2de12_odr_map: the sampling rate in Hz of each ODR register value. */
  const OdrMap: seq<u16> := [0, 1, 10, 25, 50, 100, 200, 400, 1620, 5376]

  /** One entry of lis2de12_accel_fs_map: a range in g and its sensitivity in µg/LSB. */
  datatype FsEntry = FsEntry(fs: u16, gain: u32)

  /** lis2de12_accel_fs_map, indexed by the full-scale register value. */
  const FsMap: seq<FsEntry> := [FsEntry(2, 15600), FsEntry(4, 31200), FsEntry(8, 62500), FsEntry(16, 187500)]

  /** `i` is the slowest rate of the table that is at least `freq`. */
  predicate IsOdrIndex(freq: int, i: int)
  {
    0 <= i < |OdrMap| && freq <= OdrMap[i] && forall j :: 0 <= j < i ==> OdrMap[j] < freq
  }

  /**
   * lis2de12_freq_to_odr_val: the first table entry whose rate is at least
   * `freq`, or -EINVAL when `freq` exceeds the fastest rate.
   */
  method FreqToOdrVal(freq: u16) returns (r: int)
    ensures r == -EINVAL <==> freq > OdrMap[|OdrMap| - 1]
    ensures r != -EINVAL ==> IsOdrIndex(freq, r)
  {
    var i := 0;
    while i < |OdrMap|
      invariant 0 <= i <= |OdrMap|
      invariant forall j :: 0 <= j < i ==> OdrMap[j] < freq
    {
      if freq <= OdrMap[i] {
        return i;
      }
      i := i + 1;
    }
    return -EINVAL;
  }

  /** A range in g that the device supports. */
  predicate SupportedRange(range: int)
  {
    exists i :: 0 <= i < |FsMap| && FsMap[i].fs == range
  }

  /**
   * lis2de12_accel_range_to_fs_val: the index of the table entry whose range
   * is exactly `range`, or -EINVAL when there is none.
   */
  method AccelRangeToFsVal(range: i32) returns (r: int)
    ensures r == -EINVAL <==> !SupportedRange(range)
    ensures r != -EINVAL ==> 0 <= r < |FsMap| && FsMap[r].fs == range
  {
    var i := 0;
    while i < |FsMap|
      invariant 0 <= i <= |FsMap|
      invariant forall j :: 0 <= j < i ==> FsMap[j].fs != range
    {
      if range == FsMap[i].fs {
        return i;
      }
      i := i + 1;
    }
    return -EINVAL;
  }

  /** struct sensor_value: the value val1 + val2 / 1000000. */
  datatype SensorValue = SensorValue(val1: int, val2: int)

  /** A sensor value in millionths of its unit. */
  function Micros(v: SensorValue): int
  {
    v.val1 * 1000000 + v.val2
  }

  /** The die temperature is 0 LSB at this temperature, in °C. */
  const TempOffset := 25

  /**
   * lis2de12_temp_channel_get: the raw sample counts 256 LSB per °C above
   * or below 25 °C; the offset is converted to µ°C with 64-bit truncating
   * division, split into whole degrees (plus 25) and the signed remainder.
   * The reported value is exact to within one µ°C, truncated toward 25 °C,
   * and its fractional part carries the sign of the offset from 25 °C.
   */
  function TempChannelGet(sample: i16): (v: SensorValue)
    ensures sample >= 0 ==> 0 <= sample * 1000000 - 256 * (Micros(v) - TempOffset * 1000000) < 256
    ensures sample < 0 ==> 0 <= 256 * (Micros(v) - TempOffset * 1000000) - sample * 1000000 < 256
    ensures sample >= 0 ==> 0 <= v.val2 < 1000000
    ensures sample < 0 ==> -1000000 < v.val2 <= 0
    ensures TempOffset - 128 <= v.val1 <= TempOffset + 127
  {
    var microC := CDiv(sample * 1000000, 256);
    SensorValue(CDiv(microC, 1000000) + TempOffset, CMod(microC, 1000000))
  }

  /** A raw sample of a whole number of degrees is reported exactly. */
  lemma TempWholeDegrees(k: int)
    requires -128 <= k < 128
    ensures TempChannelGet(256 * k) == SensorValue(k + TempOffset, 0)
  {
    var microC := CDiv(256 * k * 1000000, 256);
    assert microC == k * 1000000;
  }

  /** A warmer raw sample never reads colder. */
  lemma {:induction false} TempMonotone(a: i16, b: i16)
    requires a <= b
    ensures Micros(TempChannelGet(a)) <= Micros(TempChannelGet(b))
  {
    var ma := Micros(TempChannelGet(a)) - TempOffset * 1000000;
    var mb := Micros(TempChannelGet(b)) - TempOffset * 1000000;
    if a >= 0 {
      assert 256 * ma <= a * 1000000 <= b * 1000000 < 256 * mb + 256;
    } else if b < 0 {
      assert 256 * ma < a * 1000000 + 256 <= b * 1000000 + 256 <= 256 * mb + 256;
    } else {
      assert 256 * ma < 256 && 256 * mb > -256;
    }
  }

  /** The die temperature 0.5 °C below 25 °C reads as 25 - 0.5: val2 is negative while the value is positive. */
  lemma TempFractionFollowsOffset()
    ensures TempChannelGet(-128) == SensorValue(25, -500000)
    ensures TempChannelGet(-384) == SensorValue(24, -500000)
  {
  }

  /** Every table rate maps back to its own index: the rates are strictly increasing. */
  lemma OdrLookupInvertsTable(i: int, r: int)
    requires 0 <= i < |OdrMap|
    requires IsOdrIndex(OdrMap[i], r)
    ensures r == i
  {
  }

  /** A faster requested rate never selects a slower ODR value. */
  lemma OdrLookupMonotone(f: int, g: int, i: int, j: int)
    requires f <= g && IsOdrIndex(f, i) && IsOdrIndex(g, j)
    ensures i <= j
  {
  }

  /** Every table range maps back to its own index: the ranges are distinct. */
  lemma FsLookupInvertsTable(i: int, r: int)
    requires 0 <= i < |FsMap| && 0 <= r < |FsMap|
    requires FsMap[r].fs == FsMap[i].fs
    ensures r == i
  {
  }

  /** enum sensor_channel as far as this driver distinguishes it. */
  datatype Channel = AccelX | AccelY | AccelZ | AccelXyz | DieTemp | All | OtherChannel(id: nat)

  /** enum sensor_attribute as far as this driver distinguishes it. */
  datatype Attribute = FullScale | SamplingFrequency | OtherAttribute(id: nat)

  /**
   * What lis2de12_channel_get writes into the caller's sensor values: for the
   * acceleration channels, the raw samples and the sensitivity handed to
   * lis2de12_accel_convert (one per requested axis); for the die
   * temperature, the converted value; nothing for an unsupported channel.
   */
  datatype Readout = Accel(samples: seq<i16>, sensitivity: u32) | Temperature(value: SensorValue) | NoReadout

  datatype Reading = Reading(rc: int, out: Readout)

  /** The axis index of an acceleration channel. */
  function Axis(chan: Channel): (k: nat)
    requires chan.AccelX? || chan.AccelY? || chan.AccelZ?
    ensures k < 3
  {
    match chan
    case AccelX => 0
    case AccelY => 1
    case AccelZ => 2
  }

  /**
   * struct lis2de12_data: the configuration chosen through the setters, the
   * last raw samples, and whether the temperature sensor is built in
   * (CONFIG_LIS2DE12_ENABLE_TEMP). The data is zero-initialised until
   * lis2de12_init_chip configures it.
   */
  class Lis2de12 {
    var accelFs: byte
    var accelFreq: byte
    var accGain: u32
    var tempSample: i16
    const acc: array<i16>
    const tempEnabled: bool

    predicate Valid()
      reads this
    {
      acc.Length == 3
    }

    /** The recorded sensitivity is the one of the recorded full scale. */
    predicate GainMatchesScale()
      reads this
    {
      accelFs < |FsMap| && accGain == FsMap[accelFs].gain
    }

    constructor (tempEnabled: bool)
      ensures Valid() && fresh(acc) && acc[..] == [0, 0, 0]
      ensures accelFs == 0 && accelFreq == 0 && accGain == 0 && tempSample == 0
      ensures this.tempEnabled == tempEnabled
    {
      accelFs, accelFreq, accGain, tempSample := 0, 0, 0, 0;
      acc := new i16[3](_ => 0);
      this.tempEnabled := tempEnabled;
    }

    /**
     * lis2de12_accel_set_fs_raw: writes the full-scale register through the
     * HAL, which reports `halStatus`; the value is recorded only when the
     * write succeeds.
     */
    method AccelSetFsRaw(fs: byte, halStatus: int) returns (rc: int)
      modifies this
      ensures halStatus < 0 ==> rc == -EIO && accelFs == old(accelFs)
      ensures halStatus >= 0 ==> rc == 0 && accelFs == fs
      ensures accelFreq == old(accelFreq) && accGain == old(accGain) && tempSample == old(tempSample)
    {
      if halStatus < 0 {
        return -EIO;
      }
      accelFs := fs;
      return 0;
    }

    /**
     * lis2de12_accel_set_odr_raw: writes the data-rate register through the
     * HAL, which reports `halStatus`; the value is recorded only when the
     * write succeeds.
     */
    method AccelSetOdrRaw(odr: byte, halStatus: int) returns (rc: int)
      modifies this
      ensures halStatus < 0 ==> rc == -EIO && accelFreq == old(accelFreq)
      ensures halStatus >= 0 ==> rc == 0 && accelFreq == odr
      ensures accelFs == old(accelFs) && accGain == old(accGain) && tempSample == old(tempSample)
    {
      if halStatus < 0 {
        return -EIO;
      }
      accelFreq := odr;
      return 0;
    }

    /**
     * lis2de12_accel_odr_set: selects the slowest rate that is at least
     * `freq` and programs it; a rate beyond the table is refused before the
     * HAL is called.
     */
    method AccelOdrSet(freq: u16, halStatus: int) returns (rc: int)
      modifies this
      ensures rc == 0 || rc == -EINVAL || rc == -EIO
      ensures rc == -EINVAL <==> freq > OdrMap[|OdrMap| - 1]
      ensures rc == -EIO <==> freq <= OdrMap[|OdrMap| - 1] && halStatus < 0
      ensures rc == 0 ==> IsOdrIndex(freq, accelFreq)
      ensures rc != 0 ==> accelFreq == old(accelFreq)
      ensures accelFs == old(accelFs) && accGain == old(accGain) && tempSample == old(tempSample)
    {
      var odr := FreqToOdrVal(freq);
      if odr < 0 {
        return odr;
      }
      var status := AccelSetOdrRaw(odr, halStatus);
      if status < 0 {
        return -EIO;
      }
      return 0;
    }

    /**
     * lis2de12_accel_range_set: selects the full scale whose range is exactly
     * `range` g, programs it, and records its sensitivity; an unsupported
     * range is refused before the HAL is called, and a failed write leaves
     * the recorded configuration as it was.
     */
    method AccelRangeSet(range: i32, halStatus: int) returns (rc: int)
      modifies this
      ensures rc == 0 || rc == -EINVAL || rc == -EIO
      ensures rc == -EINVAL <==> !SupportedRange(range)
      ensures rc == -EIO <==> SupportedRange(range) && halStatus < 0
      ensures rc == 0 ==> GainMatchesScale() && FsMap[accelFs].fs == range
      ensures rc != 0 ==> accelFs == old(accelFs) && accGain == old(accGain)
      ensures accelFreq == old(accelFreq) && tempSample == old(tempSample)
    {
      var fs := AccelRangeToFsVal(range);
      if fs < 0 {
        return fs;
      }
      var status := AccelSetFsRaw(fs, halStatus);
      if status < 0 {
        return -EIO;
      }
      accGain := FsMap[fs].gain;
      return 0;
    }

    /**
     * lis2de12_attr_set and lis2de12_accel_config: only the XYZ acceleration
     * channel has attributes. The full scale arrives as `rangeG`, the value
     * sensor_ms2_to_g computes from the caller's m/s²; the sampling
     * frequency is the caller's integer part `val1`, passed on as a uint16_t.
     */
    method AttrSet(chan: Channel, attr: Attribute, val1: i32, rangeG: i32, halStatus: int) returns (rc: int)
      modifies this
      ensures !chan.AccelXyz? || attr.OtherAttribute? ==>
                rc == -ENOTSUP && accelFs == old(accelFs) && accelFreq == old(accelFreq) && accGain == old(accGain)
      ensures chan.AccelXyz? && attr.FullScale? ==>
                (rc == -EINVAL <==> !SupportedRange(rangeG)) &&
                (rc == -EIO <==> SupportedRange(rangeG) && halStatus < 0) &&
                (rc == 0 <==> SupportedRange(rangeG) && halStatus >= 0) &&
                (rc == 0 ==> GainMatchesScale() && FsMap[accelFs].fs == rangeG) &&
                accelFreq == old(accelFreq)
      ensures chan.AccelXyz? && attr.SamplingFrequency? ==>
                (rc == -EINVAL <==> val1 % 0x1_0000 > OdrMap[|OdrMap| - 1]) &&
                (rc == -EIO <==> val1 % 0x1_0000 <= OdrMap[|OdrMap| - 1] && halStatus < 0) &&
                (rc == 0 <==> val1 % 0x1_0000 <= OdrMap[|OdrMap| - 1] && halStatus >= 0) &&
                (rc == 0 ==> IsOdrIndex(val1 % 0x1_0000, accelFreq)) &&
                accelFs == old(accelFs) && accGain == old(accGain)
      ensures rc != 0 ==> accelFs == old(accelFs) && accelFreq == old(accelFreq) && accGain == old(accGain)
      ensures tempSample == old(tempSample)
    {
      if !chan.AccelXyz? {
        return -ENOTSUP;
      }
      match attr
      case FullScale =>
        rc := AccelRangeSet(rangeG, halStatus);
      case SamplingFrequency =>
        rc := AccelOdrSet(val1 % 0x1_0000, halStatus);
      case OtherAttribute(_) =>
        rc := -ENOTSUP;
    }

    /**
     * lis2de12_sample_fetch_accel: the HAL writes the three raw axes into
     * the driver data and reports `halStatus`.
     */
    method SampleFetchAccel(halStatus: int, raw: seq<i16>) returns (rc: int)
      requires Valid() && |raw| == 3
      modifies acc
      ensures rc == (if halStatus < 0 then -EIO else 0)
      ensures acc[..] == raw
    {
      acc[0], acc[1], acc[2] := raw[0], raw[1], raw[2];
      if halStatus < 0 {
        return -EIO;
      }
      return 0;
    }

    /**
     * lis2de12_sample_fetch_temp: the HAL writes the raw temperature into
     * the driver data and reports `halStatus`.
     */
    method SampleFetchTemp(halStatus: int, raw: i16) returns (rc: int)
      modifies this
      ensures rc == (if halStatus < 0 then -EIO else 0)
      ensures tempSample == raw
      ensures accelFs == old(accelFs) && accelFreq == old(accelFreq) && accGain == old(accGain)
    {
      tempSample := raw;
      if halStatus < 0 {
        return -EIO;
      }
      return 0;
    }

    /** The channels lis2de12_sample_fetch accepts. */
    predicate FetchSupported(chan: Channel)
      reads this
    {
      chan.AccelXyz? || chan.All? || (chan.DieTemp? && tempEnabled)
    }

    /**
     * lis2de12_sample_fetch: refreshes the raw samples of the requested
     * channel (both for SENSOR_CHAN_ALL). The fetch results are ignored, so
     * every accepted channel returns 0, also when the HAL fails.
     */
    method SampleFetch(chan: Channel, accelStatus: int, accelRaw: seq<i16>, tempStatus: int, tempRaw: i16)
      returns (rc: int)
      requires Valid() && |accelRaw| == 3
      modifies this, acc
      ensures rc == (if FetchSupported(chan) then 0 else -ENOTSUP)
      ensures acc[..] == (if chan.AccelXyz? || chan.All? then accelRaw else old(acc[..]))
      ensures tempSample == (if (chan.DieTemp? || chan.All?) && tempEnabled then tempRaw else old(tempSample))
      ensures accelFs == old(accelFs) && accelFreq == old(accelFreq) && accGain == old(accGain)
    {
      rc := 0;
      match chan
      case AccelXyz =>
        var _ := SampleFetchAccel(accelStatus, accelRaw);
      case DieTemp =>
        if tempEnabled {
          var _ := SampleFetchTemp(tempStatus, tempRaw);
        } else {
          rc := -ENOTSUP;
        }
      case All =>
        var _ := SampleFetchAccel(accelStatus, accelRaw);
        if tempEnabled {
          var _ := SampleFetchTemp(tempStatus, tempRaw);
        }
      case _ =>
        rc := -ENOTSUP;
    }

    /** The channels lis2de12_channel_get accepts. */
    predicate ChannelSupported(chan: Channel)
      reads this
    {
      chan.AccelX? || chan.AccelY? || chan.AccelZ? || chan.AccelXyz? || (chan.DieTemp? && tempEnabled)
    }

    /**
     * lis2de12_channel_get with lis2de12_accel_channel_get: each acceleration
     * channel hands its axis (all three for XYZ, in order) and the recorded
     * sensitivity to the conversion; the die temperature is converted from
     * the last raw sample; any other channel is refused and nothing written.
     */
    function ChannelGet(chan: Channel): (r: Reading)
      requires Valid()
      reads this, acc
      ensures r.rc == 0 <==> ChannelSupported(chan)
      ensures r.rc != 0 ==> r.rc == -ENOTSUP && r.out == NoReadout
      ensures chan.AccelX? || chan.AccelY? || chan.AccelZ? ==>
                r.out.Accel? && r.out.samples == [acc[Axis(chan)]] && r.out.sensitivity == accGain
      ensures chan.AccelXyz? ==> r.out.Accel? && r.out.samples == acc[..] && r.out.sensitivity == accGain
      ensures chan.DieTemp? && tempEnabled ==> r.out == Temperature(TempChannelGet(tempSample))
      ensures r.out.Temperature? ==> chan.DieTemp?
    {
      match chan
      case AccelX | AccelY | AccelZ => Reading(0, Accel([acc[Axis(chan)]], accGain))
      case AccelXyz => Reading(0, Accel([acc[0], acc[1], acc[2]], accGain))
      case DieTemp => if tempEnabled then Reading(0, Temperature(TempChannelGet(tempSample))) else Reading(-ENOTSUP, NoReadout)
      case _ => Reading(-ENOTSUP, NoReadout)
    }
  }
}
