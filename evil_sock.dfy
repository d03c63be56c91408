/** The module's view of one TCP connection: the fields of `struct evil` and
    the `tcp_sock` fields it reads and writes, updated in place by the
    congestion-control callbacks. Each method is proved to leave the state
    that the matching function of EvilModel describes. */
module EvilSock {
  import opened FixedWidth
  import opened EvilMath
  import EvilModel

  class Connection {
    // struct evil
    var evilEn: bool
    var sndCwndCents: u32
    var rho: u32
    var rho2: u32
    var rhoQ3: u32
    var rho2Q7: u32
    var minRtt: u32
    // tcp_sock
    var sndCwnd: u32
    var sndSsthresh: u32
    var sndCwndClamp: u32
    var sndCwndCnt: u32
    var srtt: u32

    /** The whole state as a value. */
    ghost function Model(): EvilModel.Conn
      reads this
    {
      EvilModel.Conn(evilEn, sndCwndCents, rho, rho2, rhoQ3, rho2Q7, minRtt,
                     sndCwnd, sndSsthresh, sndCwndClamp, sndCwndCnt, srtt)
    }

    ghost predicate Valid()
      reads this
    {
      EvilModel.Valid(Model())
    }

    /** A connection whose congestion-control private area is still zeroed. */
    constructor (srtt: u32, sndCwnd: u32, sndSsthresh: u32, sndCwndClamp: u32, sndCwndCnt: u32)
      ensures Valid()
      ensures Model() == EvilModel.Conn(false, 0, 0, 0, 0, 0, 0,
                                        sndCwnd, sndSsthresh, sndCwndClamp, sndCwndCnt, srtt)
    {
      evilEn, sndCwndCents, rho, rho2, rhoQ3, rho2Q7, minRtt := false, 0, 0, 0, 0, 0, 0;
      this.sndCwnd, this.sndSsthresh, this.sndCwndClamp := sndCwnd, sndSsthresh, sndCwndClamp;
      this.sndCwndCnt, this.srtt := sndCwndCnt, srtt;
      assert Pow2(1) == 2;
    }

    /** `evil_recalc_param`; `rtt0` is the reference RTT in jiffies. */
    method RecalcParam(rtt0: u32)
      requires rtt0 > 0
      modifies this`rhoQ3, this`rho, this`rho2Q7, this`rho2
      ensures Model() == EvilModel.RecalcParam(old(Model()), rtt0)
      ensures rhoQ3 >= Q3_ONE && rho >= 1
    {
      // in place, the arithmetic of EvilMath.RhoQ3 and EvilMath.RhoSquaredQ7
      rhoQ3 := Max(srtt / rtt0, Q3_ONE);
      rho := rhoQ3 / 8;
      rho2Q7 := Shl32(Mul32(rhoQ3, rhoQ3), 1);
      rho2 := rho2Q7 / Q7_ONE;
    }

    /** `evil_init`. */
    method Init(rtt0: u32)
      requires rtt0 > 0
      modifies this
      ensures Model() == EvilModel.Init(old(Model()), rtt0)
      ensures Valid()
      ensures evilEn && sndCwndCents == 0 && sndCwndClamp == 65535
      ensures minRtt == srtt == old(srtt) && sndCwnd == rho >= 1
    {
      ghost var z := old(Model()).(rho := 0, rho2 := 0, rhoQ3 := 0, rho2Q7 := 0, sndCwndCents := 0,
        evilEn := true, sndCwnd := EvilModel.INIT_CWND, sndCwndClamp := EvilModel.INIT_CWND_CLAMP);
      rho := 0;
      rho2 := 0;
      rhoQ3 := 0;
      rho2Q7 := 0;
      sndCwndCents := 0;
      evilEn := true;
      sndCwnd := EvilModel.INIT_CWND;
      sndCwndClamp := EvilModel.INIT_CWND_CLAMP;
      assert Model() == z;
      // first rho, from the initial smoothed RTT
      RecalcParam(rtt0);
      ghost var p := Model();
      // the first RTT ever seen is the minimum
      minRtt := srtt;
      sndCwnd := rho;
      assert Model() == p.(minRtt := z.srtt, sndCwnd := p.rho);
    }

    /** `evil_state`: the model runs exactly in the Open state. */
    method SetState(caState: u8)
      modifies this`evilEn
      ensures Model() == EvilModel.SetState(old(Model()), caState)
      ensures evilEn <==> caState == EvilModel.TCP_CA_OPEN
      ensures old(Valid()) ==> Valid()
    {
      evilEn := caState == EvilModel.TCP_CA_OPEN;
    }

    /** `evil_cong_avoid`, run once per ACK. `limited` is the verdict of
        `tcp_is_cwnd_limited`; when the model is disabled the window and ACK
        counter become `renoCwnd` and `renoCnt`, the outcome of
        `tcp_reno_cong_avoid`. */
    method CongAvoid(rtt0: u32, limited: bool, renoCwnd: u32, renoCnt: u32)
      requires rtt0 > 0
      requires limited && evilEn && sndCwnd >= sndSsthresh ==> sndCwnd > 0
      modifies this
      ensures Model() == EvilModel.CongAvoid(old(Model()), rtt0, limited, renoCwnd, renoCnt)
      ensures old(Valid()) ==> Valid()
    {
      ghost var c := Model();
      if Valid() {
        EvilModel.CongAvoidValid(c, rtt0, limited, renoCwnd, renoCnt);
      }
      // recompute rho only on a new minimum RTT
      if srtt < minRtt {
        RecalcParam(rtt0);
        minRtt := srtt;
      }
      assert Model() == EvilModel.RefreshRho(c, rtt0);
      if !limited {
        return;
      }
      if !evilEn {
        // tcp_reno_cong_avoid
        sndCwnd, sndCwndCnt := renoCwnd, renoCnt;
        return;
      }
      Grow(rtt0);
    }

    /** The growth law of `evil_cong_avoid`, for an enabled, window-limited
        connection. */
    method Grow(rtt0: u32)
      requires rtt0 > 0
      requires sndCwnd >= sndSsthresh ==> sndCwnd > 0
      modifies this
      ensures Model() == EvilModel.Grow(old(Model()), rtt0)
    {
      ghost var r := Model();
      if rho == 0 {
        RecalcParam(rtt0);
      }
      ghost var d := Model();
      assert d == EvilModel.Prepared(r, rtt0);
      var isSlowstart, increment := NextIncrement();
      var odd := AddIncrement(increment);
      ghost var e := Model();
      assert e == EvilModel.AfterCarry(d, isSlowstart, increment);
      StallAndClamp(increment, odd, isSlowstart);
    }

    /** The Q7 increment of this ACK: 2^rho - 1 in slow start, rho^2 / W in
        congestion avoidance, where an increment below 1.0 counts the ACK. */
    method NextIncrement() returns (isSlowstart: bool, increment: u32)
      requires sndCwnd >= sndSsthresh ==> sndCwnd > 0
      modifies this`sndCwndCnt
      ensures isSlowstart == (sndCwnd < sndSsthresh)
      ensures increment == EvilModel.Increment(old(Model()))
      ensures sndCwndCnt == if !isSlowstart && increment < Q7_ONE then Add32(old(sndCwndCnt), 1)
                            else old(sndCwndCnt)
    {
      // EvilMath.RhoFraction
      var rhoFractions := Sub32(rhoQ3, Shl32(rho, 3));
      isSlowstart := false;
      if sndCwnd < sndSsthresh {
        // slow start: 2^rho - 1, as 2^(integer part) times 2^(Q3 digits / 8);
        // EvilMath.SlowStartIncrement
        isSlowstart := true;
        increment := Sub32(Mul32(Shl32(1, Min(rho, MAX_RHO_SHIFT)), Fraction(rhoFractions)), Q7_ONE);
      } else {
        // congestion avoidance: rho^2 / W, already in Q7; EvilMath.AvoidanceIncrement
        increment := rho2Q7 / sndCwnd;
        if increment < Q7_ONE {
          sndCwndCnt := Add32(sndCwndCnt, 1);
        }
      }
    }

    /** Forces one unit of growth after a window's worth of ACKs without any,
        then clamps the window to ssthresh (slow start) and to the clamp. */
    method StallAndClamp(increment: u32, odd: u32, isSlowstart: bool)
      requires odd == increment % Q7_ONE
      modifies this`sndCwnd, this`sndCwndCnt
      ensures Model() == EvilModel.StallAndClamp(old(Model()), isSlowstart, increment)
    {
      if increment == 0 && odd == 0 && sndCwndCnt >= sndCwnd {
        sndCwnd := Add32(sndCwnd, 1);
        sndCwndCnt := 0;
      }
      // slow start must not overshoot ssthresh
      if isSlowstart {
        sndCwnd := Min(sndCwnd, sndSsthresh);
      }
      sndCwnd := Min(sndCwnd, sndCwndClamp);
    }

    /** Adds a Q7 increment to the window: its whole part at once, its
        fraction through the accumulator, draining every full 1.0 of the
        accumulator into the window. Returns the fraction. */
    method AddIncrement(increment: u32) returns (odd: u32)
      modifies this`sndCwnd, this`sndCwndCents, this`sndCwndCnt
      ensures odd == increment % Q7_ONE
      ensures CarryIncrement(old(sndCwnd), old(sndCwndCents), old(sndCwndCnt), increment)
           == Carried(sndCwnd, sndCwndCents, sndCwndCnt)
    {
      // the loop form of EvilMath.CarryIncrement
      odd := increment % Q7_ONE;
      sndCwnd := Add32(sndCwnd, increment / Q7_ONE);
      sndCwndCents := Add32(sndCwndCents, odd);
      ghost var cwnd1, cents1, cnt1 := sndCwnd, sndCwndCents, sndCwndCnt;
      ghost var drained: nat := 0;
      while sndCwndCents >= Q7_ONE
        invariant sndCwndCents == cents1 - Q7_ONE * drained
        invariant drained <= cents1 / Q7_ONE
        invariant sndCwnd == Wrap32(cwnd1 + drained)
        invariant sndCwndCnt == if drained == 0 then cnt1 else 0
        decreases sndCwndCents
      {
        Wrap32Succ(cwnd1 + drained);
        sndCwnd := Add32(sndCwnd, 1);
        sndCwndCents := sndCwndCents - Q7_ONE;
        sndCwndCnt := 0;
        drained := drained + 1;
      }
      // the loop drained the accumulator's whole part and kept its fraction
      assert drained == cents1 / Q7_ONE && sndCwndCents == cents1 % Q7_ONE;
    }

    /** `evil_ssthresh`: about 0.9 of the window, never below 2, and for a
        window of at least 2 never above it. */
    function Ssthresh(): (r: u32)
      reads this`sndCwnd
      ensures r >= 2
      ensures sndCwnd >= 2 ==> r <= sndCwnd
    {
      EvilMath.Ssthresh(sndCwnd)
    }
  }
}
