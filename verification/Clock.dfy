/** Saturating `u64` seconds. */
module Clock {

  const U64_MAX: nat := 0xFFFF_FFFF_FFFF_FFFF

  /** `u64::saturating_add`. */
  function SatAdd(a: nat, b: nat): nat { if a + b > U64_MAX then U64_MAX else a + b }

  /** `u64::saturating_sub`. */
  function SatSub(a: nat, b: nat): nat { if a < b then 0 else a - b }

  /** An expiry that still counts at `now`. */
  function Unexpired(now: nat): nat -> bool { exp => exp > now }
}
