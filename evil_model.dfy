/** The per-connection state of TCP Evil as a value, and each callback of the
    congestion-control module as a function from the state before the call to
    the state after it. The class in EvilSock is proved to follow these
    functions; the lemmas here state what the algorithm promises. */
module EvilModel {
  import opened FixedWidth
  import opened EvilMath

  /** `TCP_CA_Open`, the only congestion-avoidance state in which the model
      runs. */
  const TCP_CA_OPEN: u8 := 0
  /** Window set by `evil_init` before the first rho is known. */
  const INIT_CWND: u32 := 2
  /** `snd_cwnd_clamp` set by `evil_init`. */
  const INIT_CWND_CLAMP: u32 := 65535
  /** An increment is below 2^32, so one ACK adds at most 2^25 to the window
      (its whole part plus one drained unit, or one anti-stall unit). */
  const MAX_STEP: nat := 0x200_0000

  /** `struct evil` together with the `tcp_sock` fields the module touches. */
  datatype Conn = Conn(
    // struct evil
    evilEn: bool,         // model active (only in TCP_CA_Open)
    sndCwndCents: u32,    // sub-unit growth not yet in the window, Q7
    rho: u32,             // integer part of rho
    rho2: u32,            // integer part of rho^2 (computed, never read)
    rhoQ3: u32,           // rho in Q3 (rho_3ls)
    rho2Q7: u32,          // rho^2 in Q7 (rho2_7ls)
    minRtt: u32,          // smallest smoothed RTT seen
    // tcp_sock
    sndCwnd: u32,
    sndSsthresh: u32,
    sndCwndClamp: u32,
    sndCwndCnt: u32,
    srtt: u32)

  /** The rho fields are all zero (the private area before `evil_init`) or all
      derived from one rho_3ls of at least 1.0. */
  predicate RhoConsistent(c: Conn)
  {
    && (c.rhoQ3 == 0 || c.rhoQ3 >= Q3_ONE)
    && c.rho == c.rhoQ3 / 8
    && c.rho2Q7 == RhoSquaredQ7(c.rhoQ3)
    && c.rho2 == c.rho2Q7 / Q7_ONE
  }

  /** The state every callback keeps: the fraction accumulator below 1.0 and
      consistent rho fields. */
  predicate Valid(c: Conn)
  {
    c.sndCwndCents < Q7_ONE && RhoConsistent(c)
  }

  /** The fields touched by an ACK in the growth law: window, ACK counter and
      accumulator. */
  predicate SameWindow(a: Conn, b: Conn)
  {
    a.sndCwnd == b.sndCwnd && a.sndCwndCnt == b.sndCwndCnt && a.sndCwndCents == b.sndCwndCents
  }

  /** Everything but the rho fields. */
  predicate SameButRho(a: Conn, b: Conn)
  {
    a == b.(rho := a.rho, rho2 := a.rho2, rhoQ3 := a.rhoQ3, rho2Q7 := a.rho2Q7)
  }

  // ------------------------------------------------------------ callbacks

  /** `evil_recalc_param`: rho from the current smoothed RTT. */
  function RecalcParam(c: Conn, rtt0: u32): (r: Conn)
    requires rtt0 > 0
    ensures RhoConsistent(r) && r.rhoQ3 >= Q3_ONE && r.rho >= 1
    ensures r.rhoQ3 == RhoQ3(c.srtt, rtt0)
    ensures SameButRho(r, c)
  {
    var q := RhoQ3(c.srtt, rtt0);
    var sq := RhoSquaredQ7(q);
    c.(rhoQ3 := q, rho := q / 8, rho2Q7 := sq, rho2 := sq / Q7_ONE)
  }

  /** `evil_init`. */
  function Init(c: Conn, rtt0: u32): (r: Conn)
    requires rtt0 > 0
    ensures Valid(r)
    ensures r.evilEn && r.sndCwndCents == 0 && r.sndCwndClamp == INIT_CWND_CLAMP
    ensures r.minRtt == c.srtt && r.rhoQ3 == RhoQ3(c.srtt, rtt0)
    ensures r.sndCwnd == r.rho >= 1
    ensures r.sndSsthresh == c.sndSsthresh && r.sndCwndCnt == c.sndCwndCnt && r.srtt == c.srtt
  {
    var z := c.(rho := 0, rho2 := 0, rhoQ3 := 0, rho2Q7 := 0, sndCwndCents := 0,
                evilEn := true, sndCwnd := INIT_CWND, sndCwndClamp := INIT_CWND_CLAMP);
    var p := RecalcParam(z, rtt0);
    p.(minRtt := c.srtt, sndCwnd := p.rho)
  }

  /** `evil_state`. */
  function SetState(c: Conn, caState: u8): (r: Conn)
    ensures r.evilEn <==> caState == TCP_CA_OPEN
    ensures r == c.(evilEn := r.evilEn)
  {
    c.(evilEn := caState == TCP_CA_OPEN)
  }

  /** Step 1 of `evil_cong_avoid`: recompute rho on a new RTT minimum. */
  function RefreshRho(c: Conn, rtt0: u32): (r: Conn)
    requires rtt0 > 0
    ensures r.minRtt == Min(c.minRtt, c.srtt)
    ensures c.srtt < c.minRtt ==> RhoConsistent(r) && r.rhoQ3 == RhoQ3(c.srtt, rtt0)
    ensures c.srtt >= c.minRtt ==> r == c
    ensures SameWindow(r, c) && r.evilEn == c.evilEn && r.srtt == c.srtt
    ensures SameButRho(r.(minRtt := c.minRtt), c)
  {
    if c.srtt < c.minRtt then RecalcParam(c, rtt0).(minRtt := c.srtt) else c
  }

  /** Rho fields ready for the growth law: recomputed if still zero. */
  function Prepared(c: Conn, rtt0: u32): (r: Conn)
    requires rtt0 > 0
    ensures r.rho >= 1
    ensures c.rho != 0 ==> r == c
    ensures c.rho == 0 ==> RhoConsistent(r) && r.rhoQ3 == RhoQ3(c.srtt, rtt0)
    ensures SameButRho(r, c)
  {
    if c.rho == 0 then RecalcParam(c, rtt0) else c
  }

  /** The Q7 increment one ACK earns: 2^rho - 1 in slow start, rho^2 / W in
      congestion avoidance. */
  function Increment(d: Conn): (r: u32)
    requires d.sndCwnd >= d.sndSsthresh ==> d.sndCwnd > 0
    ensures d.sndCwnd >= d.sndSsthresh ==> (r == 0 <==> d.rho2Q7 < d.sndCwnd)
  {
    if d.sndCwnd < d.sndSsthresh then
      SlowStartIncrement(d.rho, RhoFraction(d.rhoQ3, d.rho))
    else
      AvoidanceIncrement(d.rho2Q7, d.sndCwnd)
  }

  /** The increment applied: the ACK counted in congestion avoidance when the
      increment is below 1.0, then the whole part added to the window and the
      fraction carried through the accumulator. */
  function AfterCarry(d: Conn, slow: bool, increment: u32): (r: Conn)
    ensures r.sndCwndCents < Q7_ONE
    ensures r == d.(sndCwnd := r.sndCwnd, sndCwndCents := r.sndCwndCents, sndCwndCnt := r.sndCwndCnt)
  {
    var cnt := if !slow && increment < Q7_ONE then Add32(d.sndCwndCnt, 1) else d.sndCwndCnt;
    var k := CarryIncrement(d.sndCwnd, d.sndCwndCents, cnt, increment);
    d.(sndCwnd := k.cwnd, sndCwndCents := k.cents, sndCwndCnt := k.cnt)
  }

  /** The anti-stall rule, then the clamps to ssthresh (slow start only) and
      to `snd_cwnd_clamp`. */
  function StallAndClamp(e: Conn, slow: bool, increment: u32): (r: Conn)
    ensures r.sndCwnd <= e.sndCwndClamp
    ensures slow ==> r.sndCwnd <= e.sndSsthresh
    ensures r == e.(sndCwnd := r.sndCwnd, sndCwndCnt := r.sndCwndCnt)
  {
    var stalled := increment == 0 && increment % Q7_ONE == 0 && e.sndCwndCnt >= e.sndCwnd;
    var cwnd := if stalled then Add32(e.sndCwnd, 1) else e.sndCwnd;
    var cwnd' := if slow then Min(cwnd, e.sndSsthresh) else cwnd;
    e.(sndCwnd := Min(cwnd', e.sndCwndClamp), sndCwndCnt := if stalled then 0 else e.sndCwndCnt)
  }

  /** The growth law proper: the model is enabled and the connection is
      window-limited. */
  function Grow(c: Conn, rtt0: u32): (r: Conn)
    requires rtt0 > 0
    requires c.sndCwnd >= c.sndSsthresh ==> c.sndCwnd > 0
    ensures r.rho >= 1 && r.sndCwndCents < Q7_ONE
    ensures r.evilEn == c.evilEn && r.minRtt == c.minRtt && r.srtt == c.srtt
    ensures r.sndSsthresh == c.sndSsthresh && r.sndCwndClamp == c.sndCwndClamp
  {
    var d := Prepared(c, rtt0);
    var slow := d.sndCwnd < d.sndSsthresh;
    var increment := Increment(d);
    StallAndClamp(AfterCarry(d, slow, increment), slow, increment)
  }

  /** `evil_cong_avoid`. `limited` is the verdict of `tcp_is_cwnd_limited`;
      `renoCwnd` and `renoCnt` are the window and ACK counter that
      `tcp_reno_cong_avoid` leaves behind when the model is disabled. */
  function CongAvoid(c: Conn, rtt0: u32, limited: bool, renoCwnd: u32, renoCnt: u32): (r: Conn)
    requires rtt0 > 0
    requires limited && c.evilEn && c.sndCwnd >= c.sndSsthresh ==> c.sndCwnd > 0
    ensures r.minRtt == Min(c.minRtt, c.srtt)
    ensures r.evilEn == c.evilEn && r.srtt == c.srtt
    ensures r.sndSsthresh == c.sndSsthresh && r.sndCwndClamp == c.sndCwndClamp
    ensures !limited ==> SameWindow(r, c)
    ensures limited && !c.evilEn ==> r.sndCwnd == renoCwnd && r.sndCwndCnt == renoCnt
    ensures limited && c.evilEn ==> r.sndCwnd <= c.sndCwndClamp && r.sndCwndCents < Q7_ONE
  {
    var r := RefreshRho(c, rtt0);
    if !limited then r
    else if !r.evilEn then r.(sndCwnd := renoCwnd, sndCwndCnt := renoCnt)
    else Grow(r, rtt0)
  }

  // --------------------------------------------------------------- lemmas

  /** Recalculation depends on the smoothed RTT alone: repeating it, or running
      it on any state with the same RTT, gives the same rho fields. */
  lemma RecalcParamIdempotent(c: Conn, c': Conn, rtt0: u32)
    requires rtt0 > 0
    requires c.srtt == c'.srtt
    ensures RecalcParam(RecalcParam(c, rtt0), rtt0) == RecalcParam(c, rtt0)
    ensures RecalcParam(c', rtt0).rhoQ3 == RecalcParam(c, rtt0).rhoQ3
    ensures RecalcParam(c', rtt0).rho == RecalcParam(c, rtt0).rho
    ensures RecalcParam(c', rtt0).rho2Q7 == RecalcParam(c, rtt0).rho2Q7
    ensures RecalcParam(c', rtt0).rho2 == RecalcParam(c, rtt0).rho2
  {
  }

  /** `evil_state` keeps the invariant. */
  lemma SetStateValid(c: Conn, caState: u8)
    requires Valid(c)
    ensures Valid(SetState(c, caState))
  {
  }

  /** The tracked minimum RTT never increases; rho is recomputed on an ACK only
      for a new minimum or while it is still zero, and otherwise the rho fields
      are left as they were. */
  lemma CongAvoidRhoRefresh(c: Conn, rtt0: u32, limited: bool, renoCwnd: u32, renoCnt: u32)
    requires rtt0 > 0
    requires limited && c.evilEn && c.sndCwnd >= c.sndSsthresh ==> c.sndCwnd > 0
    ensures var r := CongAvoid(c, rtt0, limited, renoCwnd, renoCnt);
      && r.minRtt == Min(c.minRtt, c.srtt)
      && (c.srtt >= c.minRtt && c.rho != 0 ==>
            r.rho == c.rho && r.rhoQ3 == c.rhoQ3 && r.rho2Q7 == c.rho2Q7 && r.rho2 == c.rho2)
      && (c.srtt < c.minRtt ==> r.rhoQ3 == RhoQ3(c.srtt, rtt0))
  {
  }

  /** A connection that is not window-limited keeps its window, ACK counter and
      accumulator; only the RTT minimum and rho may be refreshed. */
  lemma CongAvoidNotLimited(c: Conn, rtt0: u32, renoCwnd: u32, renoCnt: u32)
    requires rtt0 > 0
    ensures var r := CongAvoid(c, rtt0, false, renoCwnd, renoCnt);
      && SameWindow(r, c)
      && r.evilEn == c.evilEn && r.sndSsthresh == c.sndSsthresh
      && r.sndCwndClamp == c.sndCwndClamp && r.srtt == c.srtt
  {
  }

  /** With the model disabled the window and ACK counter are whatever Reno
      makes of them, and the accumulator is not touched. */
  lemma CongAvoidDisabled(c: Conn, rtt0: u32, renoCwnd: u32, renoCnt: u32)
    requires rtt0 > 0
    requires !c.evilEn
    ensures var r := CongAvoid(c, rtt0, true, renoCwnd, renoCnt);
      && r.sndCwnd == renoCwnd && r.sndCwndCnt == renoCnt
      && r.sndCwndCents == c.sndCwndCents && !r.evilEn
      && r.sndSsthresh == c.sndSsthresh && r.sndCwndClamp == c.sndCwndClamp
  {
  }

  /** Preparing the rho fields leaves a consistent state with rho >= 1 and
      touches nothing else. */
  lemma PreparedValid(c: Conn, rtt0: u32)
    requires rtt0 > 0
    requires Valid(c)
    ensures var d := Prepared(c, rtt0);
      Valid(d) && d.rho >= 1 && d.rhoQ3 >= Q3_ONE && SameButRho(d, c)
  {
  }

  /** The slow-start increment is 2^rho_3ls/8 - 1 in Q7, exact and between
      1.0 and 65536 * 234 - 128 in Q7: the rho digits index the table, never its
      fallback. */
  lemma SlowStartIncrementOfConn(d: Conn)
    requires Valid(d) && d.rho >= 1
    requires d.sndCwnd < d.sndSsthresh
    ensures RhoFraction(d.rhoQ3, d.rho) < |FRACTIONS|
    ensures Increment(d) + Q7_ONE
         == Pow2(Min(d.rho, MAX_RHO_SHIFT)) * FRACTIONS[RhoFraction(d.rhoQ3, d.rho)]
    ensures Q7_ONE <= Increment(d) <= 65536 * 234 - 128
  {
    SlowStartIncrementExact(d.rho, RhoFraction(d.rhoQ3, d.rho));
  }

  /** Every ACK handled by the growth law keeps the accumulator below 1.0 and
      leaves the rho fields consistent. */
  lemma GrowValid(c: Conn, rtt0: u32)
    requires rtt0 > 0
    requires Valid(c)
    requires c.sndCwnd >= c.sndSsthresh ==> c.sndCwnd > 0
    ensures Valid(Grow(c, rtt0))
  {
    PreparedValid(c, rtt0);
  }

  /** `evil_cong_avoid` keeps the invariant on every path. */
  lemma CongAvoidValid(c: Conn, rtt0: u32, limited: bool, renoCwnd: u32, renoCnt: u32)
    requires rtt0 > 0
    requires Valid(c)
    requires limited && c.evilEn && c.sndCwnd >= c.sndSsthresh ==> c.sndCwnd > 0
    ensures Valid(CongAvoid(c, rtt0, limited, renoCwnd, renoCnt))
  {
    var r := RefreshRho(c, rtt0);
    assert Valid(r);
    if limited && r.evilEn {
      GrowValid(r, rtt0);
    }
  }

  /** After the growth law the window is within the clamp, and within ssthresh
      when the ACK was handled in slow start. */
  lemma GrowClamped(c: Conn, rtt0: u32)
    requires rtt0 > 0
    requires c.sndCwnd >= c.sndSsthresh ==> c.sndCwnd > 0
    ensures Grow(c, rtt0).sndCwnd <= c.sndCwndClamp
    ensures c.sndCwnd < c.sndSsthresh ==> Grow(c, rtt0).sndCwnd <= c.sndSsthresh
  {
  }

  /** The carry step on a connection: exact in Q7, the accumulator stays
      below 1.0, and only window, counter and accumulator change. */
  lemma AfterCarryExact(d: Conn, slow: bool, inc: u32)
    requires d.sndCwndCents < Q7_ONE
    requires d.sndCwnd + MAX_STEP < U32_LIMIT
    ensures var e := AfterCarry(d, slow, inc);
      && e.sndCwndCents < Q7_ONE
      && Q7_ONE * e.sndCwnd + e.sndCwndCents == Q7_ONE * d.sndCwnd + d.sndCwndCents + inc
      && e.sndCwnd == (Q7_ONE * d.sndCwnd + d.sndCwndCents + inc) / Q7_ONE
      && d.sndCwnd <= e.sndCwnd <= d.sndCwnd + MAX_STEP
      && e == d.(sndCwnd := e.sndCwnd, sndCwndCents := e.sndCwndCents, sndCwndCnt := e.sndCwndCnt)
  {
    var cnt := if !slow && inc < Q7_ONE then Add32(d.sndCwndCnt, 1) else d.sndCwndCnt;
    assert inc / Q7_ONE < MAX_STEP;
    CarryConserves(d.sndCwnd, d.sndCwndCents, cnt, inc);
  }

  /** Exact growth: unless the anti-stall rule fires, the window in Q7 plus the
      accumulator grows by exactly the increment before the clamps, so the new
      window is the integer part of that sum, cut down to ssthresh (slow start)
      and to the clamp. */
  lemma GrowExact(c: Conn, rtt0: u32)
    requires rtt0 > 0
    requires Valid(c)
    requires c.sndCwnd >= c.sndSsthresh ==> c.sndCwnd > 0
    requires c.sndCwnd + MAX_STEP < U32_LIMIT
    ensures var d := Prepared(c, rtt0);
      var inc := Increment(d);
      var total := Q7_ONE * c.sndCwnd + c.sndCwndCents + inc;
      var r := Grow(c, rtt0);
      inc != 0 ==>
        && r.sndCwndCents == total % Q7_ONE
        && r.sndCwnd == Min(if c.sndCwnd < c.sndSsthresh then Min(total / Q7_ONE, c.sndSsthresh)
                            else total / Q7_ONE, c.sndCwndClamp)
  {
    var d := Prepared(c, rtt0);
    PreparedValid(c, rtt0);
    var inc := Increment(d);
    var slow := d.sndCwnd < d.sndSsthresh;
    AfterCarryExact(d, slow, inc);
  }

  /** The window does not shrink under the growth law when it starts within
      the clamp (and far enough from 2^32 for its growth not to wrap). */
  lemma GrowNeverShrinks(c: Conn, rtt0: u32)
    requires rtt0 > 0
    requires Valid(c)
    requires c.sndCwnd >= c.sndSsthresh ==> c.sndCwnd > 0
    requires c.sndCwnd <= c.sndCwndClamp
    requires c.sndCwnd + MAX_STEP < U32_LIMIT
    ensures Grow(c, rtt0).sndCwnd >= c.sndCwnd
  {
    var d := Prepared(c, rtt0);
    PreparedValid(c, rtt0);
    var inc := Increment(d);
    var slow := d.sndCwnd < d.sndSsthresh;
    AfterCarryExact(d, slow, inc);
  }

  /** In congestion avoidance, while the increment is not zero, the ACK
      counter is reset exactly when a unit is drained from the accumulator,
      and otherwise grows by one exactly when the increment is below 1.0. */
  lemma AvoidanceCounter(c: Conn, rtt0: u32)
    requires rtt0 > 0
    requires Valid(c)
    requires c.sndCwnd >= c.sndSsthresh && c.sndCwnd > 0
    requires c.sndCwnd + MAX_STEP < U32_LIMIT
    requires c.sndCwndCnt + 1 < U32_LIMIT
    ensures var inc := Increment(Prepared(c, rtt0));
      var r := Grow(c, rtt0);
      inc != 0 ==>
        r.sndCwndCnt == if c.sndCwndCents + inc % Q7_ONE >= Q7_ONE then 0
                        else if inc < Q7_ONE then c.sndCwndCnt + 1
                        else c.sndCwndCnt
  {
    var d := Prepared(c, rtt0);
    PreparedValid(c, rtt0);
    var inc := Increment(d);
    var cnt := if inc < Q7_ONE then Add32(d.sndCwndCnt, 1) else d.sndCwndCnt;
    assert inc / Q7_ONE < MAX_STEP;
    CarryConserves(d.sndCwnd, d.sndCwndCents, cnt, inc);
  }

  /** Anti-stall: in congestion avoidance with rho2_7ls below the window the
      increment is zero and the ACK is counted; once the count reaches the
      window the window gains exactly one unit and the count restarts, before
      that the window stays put. */
  lemma AntiStall(c: Conn, rtt0: u32)
    requires rtt0 > 0
    requires Valid(c)
    requires c.sndCwnd >= c.sndSsthresh && c.sndCwnd > 0
    requires c.sndCwnd < c.sndCwndClamp
    requires c.sndCwndCnt + 1 < U32_LIMIT
    requires c.rho != 0 && c.rho2Q7 < c.sndCwnd
    ensures Increment(Prepared(c, rtt0)) == 0
    ensures var r := Grow(c, rtt0);
      && (c.sndCwndCnt + 1 >= c.sndCwnd ==> r.sndCwnd == c.sndCwnd + 1 && r.sndCwndCnt == 0)
      && (c.sndCwndCnt + 1 < c.sndCwnd ==> r.sndCwnd == c.sndCwnd && r.sndCwndCnt == c.sndCwndCnt + 1)
      && r.sndCwndCents == c.sndCwndCents
  {
    AvoidanceIncrementIsQuotient(c.rho2Q7, c.sndCwnd);
  }

  // ------------------------------------------------------- runs of ACKs

  /** Conditions under which a run of ACKs keeps going: the model is on, the
      window is positive and within the clamp, and the clamp is far enough
      from 2^32 that no step wraps. */
  predicate Runnable(c: Conn)
  {
    && Valid(c) && c.evilEn
    && 0 < c.sndCwnd <= c.sndCwndClamp
    && c.sndCwndClamp + MAX_STEP < U32_LIMIT
  }

  /** One window-limited ACK taken while the transport reports `srtt`. */
  function Ack(c: Conn, srtt: u32, rtt0: u32): Conn
    requires rtt0 > 0
    requires Runnable(c)
  {
    CongAvoid(c.(srtt := srtt), rtt0, true, 0, 0)
  }

  /** A window-limited ACK with the model on keeps a run going and never
      shrinks the window. */
  lemma AckKeepsRunnable(c: Conn, srtt: u32, rtt0: u32)
    requires rtt0 > 0
    requires Runnable(c)
    ensures Runnable(Ack(c, srtt, rtt0))
    ensures Ack(c, srtt, rtt0).sndCwnd >= c.sndCwnd
    ensures Ack(c, srtt, rtt0).sndSsthresh == c.sndSsthresh
    ensures Ack(c, srtt, rtt0).sndCwndClamp == c.sndCwndClamp
  {
    var c' := c.(srtt := srtt);
    var r := RefreshRho(c', rtt0);
    GrowValid(r, rtt0);
    GrowClamped(r, rtt0);
    GrowNeverShrinks(r, rtt0);
  }

  /** A sequence of ACKs, one per smoothed-RTT sample. */
  ghost function Run(c: Conn, srtts: seq<u32>, rtt0: u32): Conn
    requires rtt0 > 0
    requires Runnable(c)
    decreases |srtts|
  {
    if srtts == [] then c
    else
      AckKeepsRunnable(c, srtts[0], rtt0);
      Run(Ack(c, srtts[0], rtt0), srtts[1..], rtt0)
  }

  /** Across any run of window-limited ACKs with the model on, the window
      never decreases and stays within the clamp. */
  lemma {:induction false} RunMonotone(c: Conn, srtts: seq<u32>, rtt0: u32)
    requires rtt0 > 0
    requires Runnable(c)
    ensures Runnable(Run(c, srtts, rtt0))
    ensures c.sndCwnd <= Run(c, srtts, rtt0).sndCwnd <= c.sndCwndClamp
    decreases |srtts|
  {
    if srtts != [] {
      AckKeepsRunnable(c, srtts[0], rtt0);
      RunMonotone(Ack(c, srtts[0], rtt0), srtts[1..], rtt0);
    }
  }

  /** Anti-stall over a run: in congestion avoidance with a zero increment and
      an unchanged RTT, after as many ACKs as the window exceeds the ACK counter
      the window has gained exactly one unit and the counter is back to zero. */
  lemma {:induction false} AntiStallEventually(c: Conn, n: nat, rtt0: u32)
    requires rtt0 > 0
    requires Runnable(c) && c.rho != 0
    requires c.srtt >= c.minRtt
    requires c.sndCwnd >= c.sndSsthresh && c.sndCwnd < c.sndCwndClamp
    requires c.rho2Q7 < c.sndCwnd
    requires c.sndCwndCnt + n == c.sndCwnd && n >= 1
    ensures Run(c, seq(n, _ => c.srtt), rtt0).sndCwnd == c.sndCwnd + 1
    ensures Run(c, seq(n, _ => c.srtt), rtt0).sndCwndCnt == 0
    decreases n
  {
    var srtts := seq(n, _ => c.srtt);
    assert c.(srtt := c.srtt) == c;
    AntiStall(c, rtt0);
    var c1 := Ack(c, c.srtt, rtt0);
    AckKeepsRunnable(c, c.srtt, rtt0);
    if n == 1 {
      assert srtts[1..] == [];
    } else {
      assert srtts[1..] == seq(n - 1, _ => c1.srtt);
      AntiStallEventually(c1, n - 1, rtt0);
    }
  }

  /** Start-up: with srtt equal to the reference RTT in Q3, init gives rho = 1
      and a window of 1; the first slow-start ACK adds exactly 1.0 and brings
      the window to 2. */
  lemma FirstAckAfterInit(c: Conn, rtt0: u32)
    requires 0 < rtt0 && c.srtt == 8 * rtt0
    requires c.sndSsthresh >= 2
    ensures var i := Init(c, rtt0);
      && i.rhoQ3 == 8 && i.rho == 1 && i.sndCwnd == 1
      && Increment(i) == Q7_ONE
      && CongAvoid(i, rtt0, true, 0, 0).sndCwnd == 2
  {
    var i := Init(c, rtt0);
    DivOfMultiple(8, rtt0);
    assert RhoQ3(c.srtt, rtt0) == 8;
    assert i.rhoQ3 == 8 && i.rho == 1 && i.sndCwnd == 1;
    assert RhoFraction(8, 1) == 0 by {
      assert Pow2(3) == 8;
    }
    assert SlowStartIncrement(1, 0) == Q7_ONE by {
      assert Pow2(1) == 2;
    }
    assert Increment(i) == Q7_ONE;
    assert RefreshRho(i, rtt0) == i;
    var e := AfterCarry(i, true, Q7_ONE);
    assert e.sndCwnd == 2 && e.sndCwndCents == 0;
  }

  /** `evil_init` starts a run of ACKs exactly when its first window, rho,
      fits under the 65535 clamp it sets: rho_3ls below 8 * 65536. */
  lemma InitRunnable(c: Conn, rtt0: u32)
    requires rtt0 > 0
    ensures Runnable(Init(c, rtt0)) <==> RhoQ3(c.srtt, rtt0) < 8 * 65536
  {
  }

  /** Otherwise the first window is above the clamp, and the first enabled,
      window-limited ACK cuts it down: the window shrinks. */
  lemma InitAboveClampShrinks(c: Conn, rtt0: u32)
    requires rtt0 > 0
    requires RhoQ3(c.srtt, rtt0) >= 8 * 65536
    ensures var i := Init(c, rtt0);
      CongAvoid(i, rtt0, true, 0, 0).sndCwnd <= INIT_CWND_CLAMP < i.sndCwnd
  {
  }
}
