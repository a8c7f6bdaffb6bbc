/** The RAPL model-specific registers the energy harness reads (MSR_RAPL_POWER_UNIT at
    offset 0x606, MSR_PKG_ENERGY_STATUS at 0x611, MSR_DRAM_ENERGY_STATUS at 0x619): the
    Energy Status Units field of the power-unit register, the joules-per-count scale it
    encodes, and the low 32-bit word kept from each energy-status reading. A register
    read is an 8-byte little-endian value, so it is modelled as a `bv64`. */
module EnergyRegisters {
  import opened Powers

  /** Bits 12:8 of the power-unit register: the Energy Status Units field. */
  const EnergyUnitMask: bv64 := 0x1F00
  const EnergyUnitOffset: bv64 := 8
  /** The largest raw count an energy-status reading can hold after masking. */
  const MaxCount: nat := 0xFFFF_FFFF

  /** A masked energy-status reading. */
  type Counter = n: nat | n <= MaxCount

  /** `(reg & 0x1F00) >> 8`: the exponent of the energy unit. */
  function UnitExponent(reg: bv64): (e: nat)
    ensures e <= 31
  {
    ((reg & EnergyUnitMask) >> EnergyUnitOffset) as nat
  }

  /** A register whose only set bits are the field: the field read back is what was put in. */
  lemma UnitExponentOfField(field: bv64)
    requires field < 32
    ensures UnitExponent(field << EnergyUnitOffset) == field as nat
  {
  }

  /** The exponent depends on bits 12:8 alone: two registers that agree there give the same
      exponent, whatever their other bits. */
  lemma UnitExponentFieldOnly(a: bv64, b: bv64)
    ensures UnitExponent(a) == UnitExponent(b) <==> a & EnergyUnitMask == b & EnergyUnitMask
  {
  }

  /** `0.5 ** e`, exactly. */
  function HalfPow(e: nat): (r: real)
    ensures 0.0 < r <= 1.0
  {
    if e == 0 then 1.0 else 0.5 * HalfPow(e - 1)
  }

  /** `0.5 ** e` is the reciprocal of `2 ** e`. */
  lemma {:induction false} HalfPowInverse(e: nat)
    ensures HalfPow(e) * Pow2(e) as real == 1.0
  {
    if e > 0 {
      HalfPowInverse(e - 1);
      calc {
        HalfPow(e) * Pow2(e) as real;
        0.5 * HalfPow(e - 1) * (2 * Pow2(e - 1)) as real;
        HalfPow(e - 1) * Pow2(e - 1) as real;
      }
    }
  }

  /** A larger exponent is a finer unit. */
  lemma {:induction false} HalfPowDecreasing(a: nat, b: nat)
    requires a <= b
    ensures HalfPow(b) <= HalfPow(a)
    decreases b - a
  {
    if a < b {
      HalfPowDecreasing(a, b - 1);
    }
  }

  /** Joules per count: `0.5 ** ((reg & 0x1F00) >> 8)`. */
  function EnergyUnit(reg: bv64): (unit: real)
    ensures 0.0 < unit <= 1.0
    ensures unit * Pow2(UnitExponent(reg)) as real == 1.0
  {
    HalfPowInverse(UnitExponent(reg));
    HalfPow(UnitExponent(reg))
  }

  /** The smallest unit a register can encode is `2 ** -31` joules. */
  lemma EnergyUnitFloor(reg: bv64)
    ensures HalfPow(31) <= EnergyUnit(reg)
  {
    HalfPowDecreasing(UnitExponent(reg), 31);
  }

  /** A power-unit register with field 14 (`0xA0E03`) gives `2 ** -14` joules per count. */
  lemma EnergyUnitOfFourteen()
    ensures UnitExponent(0xA_0E03) == 14
    ensures EnergyUnit(0xA_0E03) == 1.0 / 16384.0
  {
    assert UnitExponent(0xA_0E03) == 14;
    assert Pow2(14) == 16384 by {
      Pow2Add(6, 8);
      Pow2Of8();
    }
  }

  /** An energy-status read: eight little-endian bytes, as a non-negative integer. */
  type RawReading = n: nat | n < 0x1_0000_0000_0000_0000

  /** `value & 0xFFFFFFFF`: the low 32 bits of a reading, which for a non-negative integer is
      its remainder modulo `2 ** 32`. */
  function LowWord(v: RawReading): (r: Counter)
    ensures r <= v
    ensures v <= MaxCount ==> r == v
    ensures (v - r) % (MaxCount + 1) == 0
  {
    v % (MaxCount + 1)
  }

  /** Masking keeps a reading that already fits in 32 bits and drops the high 32 bits. */
  lemma LowWordKeepsLow(v: RawReading, high: nat)
    requires v <= MaxCount && high < 0x1_0000_0000
    ensures LowWord(v) == v
    ensures LowWord(high * (MaxCount + 1) + v) == v
  {
  }
}
