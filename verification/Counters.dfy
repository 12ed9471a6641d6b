/** Ring positions kept as 32-bit counters that wrap and are never reset. */
module Counters {
  import opened CTypes

  const WRAP := 0x1_0000_0000

  /** A ring size that divides 2^32: 512 and 128 do. */
  predicate RingSize(n: nat) {
    n == 512 || n == 128
  }

  /** Counting modulo 2^32 loses nothing: ring positions and distances come out the same. */
  lemma Wraps(n: nat, r: nat, w: nat)
    requires RingSize(n) && r <= w <= r + n
    ensures r % WRAP == w % WRAP <==> r == w
    ensures w % WRAP == (r % WRAP + n) % WRAP <==> w == r + n
    ensures w % WRAP % n == w % n && r % WRAP % n == r % n
    ensures (w % WRAP + 1) % WRAP == (w + 1) % WRAP && (r % WRAP + 1) % WRAP == (r + 1) % WRAP
  {
    WrapsOne(n, w);
    WrapsOne(n, r);
    WrapsApart(n, r, w - r);
    WrapsApart(n, w, r + n - w);
    WrapsSum(n, r);
  }

  lemma WrapsSum(n: nat, r: nat)
    requires n <= 512
    ensures (r % WRAP + n) % WRAP == (r + n) % WRAP
  {
  }

  lemma WrapsApart(n: nat, r: nat, d: nat)
    requires RingSize(n) && d <= n
    ensures r % WRAP == (r + d) % WRAP <==> d == 0
  {
  }

  lemma WrapsOne(n: nat, x: nat)
    requires RingSize(n)
    ensures x % WRAP % n == x % n && (x % WRAP + 1) % WRAP == (x + 1) % WRAP
  {
    if n == 512 { Mod512(x); } else { Mod128(x); }
  }

  lemma Mod512(x: nat)
    ensures x % WRAP % 512 == x % 512
  {
    var q := x / WRAP;
    assert x == 512 * (q * 0x80_0000) + x % WRAP;
    Shift512(q * 0x80_0000, x % WRAP);
  }

  lemma Shift512(k: nat, y: nat)
    ensures (512 * k + y) % 512 == y % 512
  {
  }

  lemma Mod128(x: nat)
    ensures x % WRAP % 128 == x % 128
  {
    var q := x / WRAP;
    assert x == 128 * (q * 0x200_0000) + x % WRAP;
    Shift128(q * 0x200_0000, x % WRAP);
  }

  lemma Shift128(k: nat, y: nat)
    ensures (128 * k + y) % 128 == y % 128
  {
  }

  /** The distance between the counters. */
  lemma WrapsDistance(n: nat, r: nat, w: nat)
    requires RingSize(n) && r <= w <= r + n
    ensures (w % WRAP + (WRAP - r % WRAP)) % WRAP == w - r
  {
  }

  /** Counting down. */
  lemma WrapsDown(n: nat, x: nat)
    requires RingSize(n) && 0 < x
    ensures (x % WRAP + (WRAP - 1)) % WRAP == (x - 1) % WRAP
  {
  }

  /** Different bytes in the ring lie at different places. */
  lemma RingApart(n: nat, r: nat, k: nat, w: nat)
    requires RingSize(n) && r <= k < w < r + n
    ensures k % n != w % n
  {
  }

  /** The next place in a ring that is not full is free. */
  lemma RingFree(n: nat, r: nat, w: nat)
    requires RingSize(n) && r <= w < r + n
    ensures forall k :: r <= k < w ==> k % n != w % n
  {
    forall k | r <= k < w
      ensures k % n != w % n
    {
      RingApart(n, r, k, w);
    }
  }
}
