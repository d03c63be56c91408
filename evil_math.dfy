/** The fixed-point arithmetic of TCP Evil, free of any connection state.

    Scales used throughout:
    - Q3: a value v is stored as v * 8 (`rho_3ls`);
    - Q7: a value v is stored as v * 128 (`rho2_7ls`, increments, `snd_cwnd_cents`).
    The kernel keeps the smoothed RTT as 8 * RTT in jiffies, so `srtt / rtt0`
    is already rho = RTT / rtt0 in Q3. */
module EvilMath {
  import opened FixedWidth

  /** 1.0 in Q3 and the floor of rho_3ls (rho >= 1). */
  const Q3_ONE: u32 := 8
  /** 1.0 in Q7: the carry drains whenever the fractions reach it. */
  const Q7_ONE: u32 := 128
  /** The slow-start shift `1 << rho` is capped at this exponent. */
  const MAX_RHO_SHIFT: u32 := 16
  /** `(rho_3ls * rho_3ls) << 1` fits in 32 bits exactly below this value. */
  const RHO_Q3_WRAP: u32 := 46341

  /** 2^(k/8) in Q7 for k = 0 .. 7. */
  const FRACTIONS: seq<u32> := [128, 139, 152, 165, 181, 197, 215, 234]

  // ---------------------------------------------------------------- rho

  /** rho in Q3 from the smoothed RTT and the reference RTT (both in jiffies),
      floored at 1.0. */
  function RhoQ3(srtt: u32, rtt0: u32): (r: u32)
    requires rtt0 > 0
    ensures r >= Q3_ONE
    ensures r >= srtt / rtt0
    ensures r == srtt / rtt0 || r == Q3_ONE
  {
    Max(srtt / rtt0, Q3_ONE)
  }

  /** rho^2 in Q7: squaring a Q3 value gives Q6, one more left shift gives Q7.
      Both the product and the shift are 32-bit operations. */
  function RhoSquaredQ7(rhoQ3: u32): u32
  {
    Shl32(Mul32(rhoQ3, rhoQ3), 1)
  }

  lemma MulMonotone(a: nat, b: nat, c: nat)
    requires a <= b
    ensures a * c <= b * c
  {
  }

  lemma SquareMonotone(a: nat, b: nat)
    requires a <= b
    ensures a * a <= b * b
  {
    MulMonotone(a, b, a);
    MulMonotone(a, b, b);
  }

  lemma DivOfMultiple(k: nat, d: nat)
    requires d > 0
    ensures (k * d) / d == k
  {
    var q := (k * d) / d;
    assert k * d == q * d + (k * d) % d;
    // one more multiple of d than the smaller of q and k exceeds the remainder
    MulMonotone(if q < k then q + 1 else k + 1, if q < k then k else q + 1, d);
  }

  lemma QuotientBounds(x: nat, y: nat)
    requires y > 0
    ensures x / y <= x
    ensures x / y == 0 <==> x < y
  {
    var q := x / y;
    assert x == q * y + x % y && x % y < y;
    if q > 0 {
      MulMonotone(1, y, q);
      MulMonotone(1, q, y);
      assert q <= y * q && y <= q * y;
    }
  }

  /** The Q7 square is exact precisely when rho_3ls is below 46341; from there
      on the u32 arithmetic wraps and the stored value is strictly smaller than
      the true one. */
  lemma RhoSquaredExactIff(rhoQ3: u32)
    ensures RhoSquaredQ7(rhoQ3) == 2 * rhoQ3 * rhoQ3 <==> rhoQ3 < RHO_Q3_WRAP
    ensures RhoSquaredQ7(rhoQ3) <= 2 * rhoQ3 * rhoQ3
  {
    assert Pow2(1) == 2;
    var sq := rhoQ3 * rhoQ3;
    if rhoQ3 < RHO_Q3_WRAP {
      SquareMonotone(rhoQ3, 46340);
      assert Mul32(rhoQ3, rhoQ3) == sq;
      assert sq * Pow2(1) < U32_LIMIT;
    } else {
      SquareMonotone(RHO_Q3_WRAP, rhoQ3);
      var m := Mul32(rhoQ3, rhoQ3);
      assert m <= sq;
      assert RhoSquaredQ7(rhoQ3) == (m * 2) % U32_LIMIT;
      assert RhoSquaredQ7(rhoQ3) < U32_LIMIT <= 2 * sq;
    }
  }

  /** The smallest rho_3ls whose square wraps: 2 * 46341^2 = 4294976562 is
      stored as 9266. */
  lemma RhoSquaredFirstWrap()
    ensures 2 * RHO_Q3_WRAP * RHO_Q3_WRAP == U32_LIMIT + 9266
    ensures RhoSquaredQ7(RHO_Q3_WRAP) == 9266
  {
    assert Pow2(1) == 2;
  }

  /** rho_fractions: the Q3 fractional digits of rho, `rho_3ls - (rho << 3)`. */
  function RhoFraction(rhoQ3: u32, rho: u32): (r: u32)
    ensures rho == rhoQ3 / 8 ==> r == rhoQ3 % 8
  {
    assert Pow2(3) == 8;
    Sub32(rhoQ3, Shl32(rho, 3))
  }

  // ----------------------------------------------------------- fractions

  /** `evil_fraction`: 2^(odds/8) in Q7, 1.0 for an index outside the table. */
  function Fraction(odds: u32): (r: u32)
    ensures Q7_ONE <= r <= 234
    ensures odds >= |FRACTIONS| ==> r == Q7_ONE
  {
    if odds < |FRACTIONS| then FRACTIONS[odds] else Q7_ONE
  }

  function Pow8(x: nat): nat
  {
    var x2 := x * x;
    var x4 := x2 * x2;
    x4 * x4
  }

  /** Entry k of the table is the integer part of 128 * 2^(k/8): its eighth
      power does not exceed 128^8 * 2^k and the next integer's does.
      Entries 0 to 3. */
  lemma LowFractionsAreRootsOfTwo()
    ensures FRACTIONS[0] == 128 && Pow8(128) <= Pow8(128) * Pow2(0) < Pow8(129)
    ensures FRACTIONS[1] == 139 && Pow8(139) <= Pow8(128) * Pow2(1) < Pow8(140)
    ensures FRACTIONS[2] == 152 && Pow8(152) <= Pow8(128) * Pow2(2) < Pow8(153)
    ensures FRACTIONS[3] == 165 && Pow8(165) <= Pow8(128) * Pow2(3) < Pow8(166)
  {
  }

  /** The same bracketing for entries 4 to 7. */
  lemma HighFractionsAreRootsOfTwo()
    ensures FRACTIONS[4] == 181 && Pow8(181) <= Pow8(128) * Pow2(4) < Pow8(182)
    ensures FRACTIONS[5] == 197 && Pow8(197) <= Pow8(128) * Pow2(5) < Pow8(198)
    ensures FRACTIONS[6] == 215 && Pow8(215) <= Pow8(128) * Pow2(6) < Pow8(216)
    ensures FRACTIONS[7] == 234 && Pow8(234) <= Pow8(128) * Pow2(7) < Pow8(235)
  {
  }

  /** The table is strictly increasing, as 2^(k/8) is. */
  lemma FractionIncreasing(i: u32, j: u32)
    requires i < j < |FRACTIONS|
    ensures Fraction(i) < Fraction(j)
  {
  }

  // ----------------------------------------------------------- increments

  /** Slow-start increment in Q7, `((1 << min(rho, 16)) * fraction) - 128`:
      2^rho - 1 when rho is split into integer part and Q3 digits. */
  function SlowStartIncrement(rho: u32, rhoFractions: u32): u32
  {
    Sub32(Mul32(Shl32(1, Min(rho, MAX_RHO_SHIFT)), Fraction(rhoFractions)), Q7_ONE)
  }

  /** With rho >= 1 no step of the slow-start increment wraps: it is
      2^min(rho,16) times the table entry, minus 1.0, and lies in
      [128, 65536 * 234 - 128]. */
  lemma SlowStartIncrementExact(rho: u32, rhoFractions: u32)
    requires rho >= 1
    ensures SlowStartIncrement(rho, rhoFractions) + Q7_ONE
         == Pow2(Min(rho, MAX_RHO_SHIFT)) * Fraction(rhoFractions)
    ensures Q7_ONE <= SlowStartIncrement(rho, rhoFractions) <= 65536 * 234 - 128
  {
    var s := Min(rho, MAX_RHO_SHIFT);
    Pow2Monotone(1, s);
    Pow2Monotone(s, 16);
    assert Pow2(1) == 2 && Pow2(16) == 65536;
    var p := Pow2(s);
    var f := Fraction(rhoFractions);
    MulMonotone(p, 65536, f);
    MulMonotone(2, p, f);
    MulMonotone(f, 234, 65536);
    assert Shl32(1, s) == p;
    assert Mul32(p, f) == p * f;
  }

  /** Congestion-avoidance increment in Q7, `rho2_7ls / snd_cwnd`: rho^2 / W
      in Q7, rounded down. */
  function AvoidanceIncrement(rho2Q7: u32, cwnd: u32): (r: u32)
    requires cwnd > 0
    ensures r <= rho2Q7
    ensures r == 0 <==> rho2Q7 < cwnd
  {
    QuotientBounds(rho2Q7, cwnd);
    rho2Q7 / cwnd
  }

  /** The increment is the integer quotient: it times the window stays within
      one window of rho2_7ls, and it is zero exactly when the window exceeds
      rho2_7ls. */
  lemma AvoidanceIncrementIsQuotient(rho2Q7: u32, cwnd: u32)
    requires cwnd > 0
    ensures var r := AvoidanceIncrement(rho2Q7, cwnd);
      && r * cwnd <= rho2Q7 < r * cwnd + cwnd
      && (r == 0 <==> rho2Q7 < cwnd)
  {
    var r := rho2Q7 / cwnd;
    assert rho2Q7 == r * cwnd + rho2Q7 % cwnd;
    if r > 0 {
      MulMonotone(1, r, cwnd);
    }
  }

  // ---------------------------------------------------------------- carry

  /** The window, fraction accumulator and ACK counter after a carry step. */
  datatype Carried = Carried(cwnd: u32, cents: u32, cnt: u32)

  /** Whole units of an increment go to the window at once, its Q7 fraction
      into the accumulator; every full 1.0 in the accumulator is then moved into
      the window and resets the ACK counter. */
  function CarryIncrement(cwnd: u32, cents: u32, cnt: u32, increment: u32): (r: Carried)
    ensures r.cents < Q7_ONE
    ensures r.cnt == cnt || r.cnt == 0
  {
    var cwnd1 := Add32(cwnd, increment / Q7_ONE);
    var cents1 := Add32(cents, increment % Q7_ONE);
    if cents1 >= Q7_ONE then
      Carried(Add32(cwnd1, cents1 / Q7_ONE), cents1 % Q7_ONE, 0)
    else
      Carried(cwnd1, cents1, cnt)
  }

  /** No fractional growth is lost or counted twice: with the accumulator
      below 1.0 on entry, the window in Q7 plus the accumulator grows by exactly
      the increment, the accumulator stays below 1.0, at most one unit is
      drained, and the counter is reset exactly when a unit is drained. */
  lemma CarryConserves(cwnd: u32, cents: u32, cnt: u32, increment: u32)
    requires cents < Q7_ONE
    requires cwnd + increment / Q7_ONE + 1 < U32_LIMIT
    ensures var k := CarryIncrement(cwnd, cents, cnt, increment);
      && k.cents < Q7_ONE
      && Q7_ONE * k.cwnd + k.cents == Q7_ONE * cwnd + cents + increment
      && cwnd + increment / Q7_ONE <= k.cwnd <= cwnd + increment / Q7_ONE + 1
      && k.cnt == (if cents + increment % Q7_ONE >= Q7_ONE then 0 else cnt)
  {
  }

  // -------------------------------------------------------------- ssthresh

  /** `evil_ssthresh`: about 0.90625 * cwnd using only shifts, at least 2. */
  function Ssthresh(cwnd: u32): (r: u32)
    ensures r >= 2
    ensures cwnd >= 2 ==> r <= cwnd
  {
    var ret := Add32(Add32(Add32(Sub32(cwnd, cwnd / 2), cwnd / 4), cwnd / 8), cwnd / 32);
    Max(ret, 2)
  }

  /** None of the shift-and-add steps wraps, and the result approximates
      29/32 of the window: 29 * cwnd - 83 <= 32 * base <= 29 * cwnd + 16. */
  lemma SsthreshApproximates(cwnd: u32)
    ensures var base := cwnd - cwnd / 2 + cwnd / 4 + cwnd / 8 + cwnd / 32;
      && Ssthresh(cwnd) == (if base < 2 then 2 else base)
      && 29 * cwnd - 83 <= 32 * base <= 29 * cwnd + 16
  {
  }

  /** A larger window never gives a smaller threshold. */
  lemma SsthreshMonotone(a: u32, b: u32)
    requires a <= b
    ensures Ssthresh(a) <= Ssthresh(b)
  {
    SsthreshApproximates(a);
    SsthreshApproximates(b);
    assert a - a / 2 <= b - b / 2;
    assert a / 4 <= b / 4 && a / 8 <= b / 8 && a / 32 <= b / 32;
  }

  lemma SsthreshOfTen()
    ensures Ssthresh(10) == 8
  {
  }
}
