/**
 * The one's-complement block checksum that guards every extended-memory
 * (ManufacturerAccessControl) transfer of the BQ35100: the byte sum of the
 * covered bytes is taken modulo 256 and subtracted from 0xFF, so that the
 * covered bytes plus the checksum byte always sum to 0xFF modulo 256.
 */
module BlockChecksum {
  import opened ByteOrder

  /** Sum of the bytes, unbounded (the modulo is applied by the caller). */
  function Sum(s: seq<byte>): nat
  {
    if s == [] then 0 else Sum(s[..|s| - 1]) + s[|s| - 1]
  }

  /** The checksum byte of a block. */
  function Checksum(s: seq<byte>): byte
  {
    0xFF - Sum(s) % 0x100
  }

  /**
   * bq35100_compute_checksum: sums `length` bytes starting at `data + from`
   * in a uint8_t accumulator and returns 0xFF minus the sum; a null `data`
   * gives 0. The loop counter is a uint8_t that wraps from 255 to 0, so the
   * loop only terminates for lengths up to 254, which every caller respects.
   */
  method ComputeChecksum(data: array?<byte>, from: nat, length: nat) returns (checksum: byte)
    requires data != null ==> from + length <= data.Length
    requires length < 0xFF
    ensures data == null ==> checksum == 0
    ensures data != null ==> (Sum(data[from..from + length]) + checksum) % 0x100 == 0xFF
    ensures data != null ==> checksum == Checksum(data[from..from + length])
  {
    checksum := 0;
    if data != null {
      var x := 1;
      while x <= length
        invariant 1 <= x <= length + 1
        invariant checksum == Sum(data[from..from + x - 1]) % 0x100
      {
        ghost var covered := data[from..from + x];
        assert covered[..|covered| - 1] == data[from..from + x - 1];
        AddModulo(Sum(data[from..from + x - 1]), data[from + x - 1]);
        checksum := (checksum + data[from + x - 1]) % 0x100;
        x := x + 1;
      }
      checksum := 0xFF - checksum;
    }
  }

  /** Adding into a uint8_t accumulator: reducing before or after the addition agrees. */
  lemma AddModulo(a: nat, d: nat)
    ensures (a % 0x100 + d) % 0x100 == (a + d) % 0x100
  {
    var q := a / 0x100;
    assert a == q * 0x100 + a % 0x100;
    assert a + d == q * 0x100 + (a % 0x100 + d);
  }

  /** The sum of a concatenation is the sum of its parts. */
  lemma {:induction false} SumConcat(a: seq<byte>, b: seq<byte>)
    ensures Sum(a + b) == Sum(a) + Sum(b)
    decreases |b|
  {
    if b != [] {
      var b' := b[..|b| - 1];
      assert (a + b)[..|a + b| - 1] == a + b';
      SumConcat(a, b');
    } else {
      assert a + b == a;
    }
  }

  /** Appending the checksum seals a block: the whole block then sums to 0xFF modulo 256. */
  lemma ChecksumSeals(s: seq<byte>)
    ensures Sum(s + [Checksum(s)]) % 0x100 == 0xFF
  {
    assert (s + [Checksum(s)])[..|s|] == s;
  }

  /**
   * A checksum byte is accepted exactly when it is the block's checksum:
   * verifying a received block and stamping an outgoing one agree.
   */
  lemma ChecksumAccepts(s: seq<byte>, c: byte)
    ensures Sum(s + [c]) % 0x100 == 0xFF <==> c == Checksum(s)
  {
    assert (s + [c])[..|s|] == s;
    assert Sum(s + [c]) == Sum(s) + c;
  }
}
