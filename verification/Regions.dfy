/** Byte ranges, and rounding sizes up. */
module Regions {
  datatype Region = Region(lo: int, size: nat)

  predicate Apart(r: Region, q: Region)
  {
    r.lo + r.size <= q.lo || q.lo + q.size <= r.lo
  }

  predicate Within(r: Region, lo: int, hi: int)
  {
    lo <= r.lo && r.lo + r.size <= hi
  }

  function Round8(n: nat): (r: nat)
    ensures n <= r < n + 8 && r % 8 == 0
  {
    (n + 7) / 8 * 8
  }

  function Round16(n: nat): (r: nat)
    ensures n <= r < n + 16 && r % 16 == 0
  {
    (n + 15) / 16 * 16
  }
}
