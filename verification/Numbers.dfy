/** Comparing and subtracting naturals. */
module Numbers {

  function Max(a: nat, b: nat): nat {
    if a < b then b else a
  }

  function Lesser(a: nat, b: nat): nat {
    if a < b then a else b
  }

  /** `saturating_sub`. */
  function SaturatingSub(a: nat, b: nat): nat {
    if a < b then 0 else a - b
  }
}
