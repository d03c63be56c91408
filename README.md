# TCP Evil congestion control in Dafny

TCP Evil is a Linux congestion-control module derived from TCP Hybla. Per
connection it keeps a small private area, `struct evil`: the
latency-scaling ratio rho in several fixed-point forms, the smallest smoothed
RTT seen so far, an enable flag and a Q7 accumulator of sub-unit window
growth. On every ACK it grows the connection's congestion window by a
latency-scaled law:
- 2^rho - 1 per ACK in slow start, through a table of 2^(k/8);
- rho^2 / W in congestion avoidance;
- fractional growth carried through the accumulator;
- an anti-stall rule that forces one unit after a window's worth of
  zero-growth ACKs;
- clamps to ssthresh (slow start only) and to `snd_cwnd_clamp`.

`evil_ssthresh` gives about 0.9 of the window, never below 2.

The project has four modules:

- `FixedWidth` (`fixed_width.dfy`): u32 arithmetic as C does it, where every
  store reduces modulo 2^32. It provides `Add32`, `Sub32`, `Mul32`, `Shl32`,
  `Min` and `Max`.
- `EvilMath` (`evil_math.dfy`): the state-free numerics.
  - Q3 and Q7 scales. The kernel keeps `srtt` as 8 * RTT in jiffies, so
    `srtt / rtt0` is already rho in Q3.
  - The rho formulas, the fraction table, both increments, the carry step in
    closed form, and `evil_ssthresh`.
- `EvilModel` (`evil_model.dfy`): the connection state as a value (`Conn`) and
  every callback as a function from the state before to the state after.
  It holds the lemmas about the algorithm:
  - the invariant the callbacks keep;
  - exact Q7 conservation;
  - the clamps;
  - monotonicity over runs of ACKs;
  - anti-stall over a run;
  - the start-up scenario.
- `EvilSock` (`evil_sock.dfy`): class `Connection`, whose fields are the
  `struct evil` members plus the `tcp_sock` fields the module reads and
  writes. Its methods update the fields in place, as the C callbacks do. The
  callbacks and the stages of the growth law (`RecalcParam`, `Init`,
  `SetState`, `CongAvoid`, `Grow`, `StallAndClamp`) are proved to leave
  `Model()` equal to the matching `EvilModel` function of the old state. The
  two inner steps are tied field by field instead: `NextIncrement` to
  `EvilModel.Increment` and the ACK-counter bump, and `AddIncrement`, whose
  drain loop is a `while` loop with invariants, to `EvilMath.CarryIncrement`.

The reference RTT `rtt0` is a parameter, already converted to jiffies.

Integer width is modelled explicitly. `(rho_3ls * rho_3ls) << 1` wraps once
`rho_3ls` reaches 46341 (`RhoSquaredExactIff`, `RhoSquaredFirstWrap`), and
the model keeps that wrapped value. The window and ACK-counter updates
(`snd_cwnd += increment >> 7`, the drained and anti-stall `snd_cwnd++`,
`snd_cwnd_cnt++`) are u32 additions as well and are kept wrapping. The lemmas
that state exact growth get it from headroom below 2^32: a window at least
2^25 below it (`MAX_STEP`, the most one ACK can add) and a counter below
2^32 - 1. The bound on rho_3ls plays no part in that.

Details of the code that the model keeps, though a summary of the algorithm
might suggest otherwise:
- The window is not floored at 2. `evil_init` sets it to rho, which is 1 when
  the smoothed RTT is at most the reference.
- The start-up scenario needs `srtt == 8 * rtt0`, since `srtt` is stored
  scaled by 8.
- With the model disabled, an ACK still recomputes rho when it brings a new
  RTT minimum (`CongAvoidRhoRefresh`). It leaves only the accumulator
  untouched (`CongAvoidDisabled`).
- `evil_init` sets the clamp to 65535 and then the window to rho, without
  clamping it. For rho_3ls of at least 8 * 65536 the first window is above
  the clamp, and the first enabled, window-limited ACK cuts it down, so the
  window shrinks (`InitAboveClampShrinks`). Below that bound `Init` starts a
  run of ACKs in which the window never decreases (`InitRunnable`,
  `RunMonotone`).

## Model

| member | source | states |
|---|---|---|
| FixedWidth.Add32 | tcp_evil.c:148-149 | u32 `+`: the exact sum when it fits, otherwise the sum minus 2^32 |
| FixedWidth.Sub32 | tcp_evil.c:116 | u32 `-`: the exact difference when it is not negative, otherwise the difference plus 2^32 |
| FixedWidth.Mul32 | tcp_evil.c:45 | u32 `*`: the exact product when it fits |
| FixedWidth.Shl32 | tcp_evil.c:45 | u32 `<<`: a * 2^n when that fits |
| FixedWidth.Min | tcp_evil.c:164-166 | `min`: a lower bound of both arguments and equal to one of them |
| FixedWidth.Max | tcp_evil.c:43 | `max_t`: an upper bound of both arguments and equal to one of them |
| EvilMath.RhoQ3 | tcp_evil.c:43 | rho_3ls is at least 8 and at least srtt / rtt0, and is one of the two |
| EvilMath.RhoSquaredExactIff | tcp_evil.c:45 | rho2_7ls equals 2 * rho_3ls^2 exactly when rho_3ls < 46341, and never exceeds it |
| EvilMath.RhoSquaredQ7 | tcp_evil.c:45 | `(rho_3ls * rho_3ls) << 1` on u32; no contract of its own, its properties are `RhoSquaredExactIff` and `RhoSquaredFirstWrap` |
| EvilMath.RhoSquaredFirstWrap | tcp_evil.c:45 | at rho_3ls = 46341 the true value is 2^32 + 9266 and the stored value is 9266 |
| EvilMath.RhoFraction | tcp_evil.c:116 | when rho is rho_3ls >> 3, rho_fractions is rho_3ls mod 8 |
| EvilMath.Fraction | tcp_evil.c:77-84 | the result is in [128, 234] and is 128 for an index past the table |
| EvilMath.LowFractionsAreRootsOfTwo | tcp_evil.c:79-81 | entries 0-3 are the integer part of 128 * 2^(k/8): f^8 <= 128^8 * 2^k < (f+1)^8 |
| EvilMath.HighFractionsAreRootsOfTwo | tcp_evil.c:79-81 | entries 4-7 are the integer part of 128 * 2^(k/8), bracketed the same way |
| EvilMath.FractionIncreasing | tcp_evil.c:79-83 | the table is strictly increasing |
| EvilMath.SlowStartIncrement | tcp_evil.c:133-134 | the slow-start increment on u32; no contract of its own, its properties are `SlowStartIncrementExact` and `EvilModel.SlowStartIncrementOfConn` |
| EvilMath.SlowStartIncrementExact | tcp_evil.c:133-134 | for rho >= 1 nothing wraps: increment + 128 = 2^min(rho,16) * fraction, and 128 <= increment <= 65536 * 234 - 128 |
| EvilMath.AvoidanceIncrement | tcp_evil.c:142 | the quotient is at most rho2_7ls and is 0 exactly when rho2_7ls < W; `AvoidanceIncrementIsQuotient` brackets it |
| EvilMath.AvoidanceIncrementIsQuotient | tcp_evil.c:142 | increment * W <= rho2_7ls < increment * W + W, and the increment is 0 exactly when rho2_7ls < W |
| EvilMath.CarryIncrement | tcp_evil.c:147-156 | the carry step in closed form (whole part, fraction, drain of every full 1.0): the accumulator ends below 128 whatever it was, and the counter is kept or reset to 0; `CarryConserves` states the exact Q7 balance |
| EvilMath.CarryConserves | tcp_evil.c:147-156 | with the accumulator below 128 and no wrap: 128 * cwnd + cents grows by exactly the increment, cents stays below 128, at most one unit is drained, and the counter resets exactly when one is |
| EvilMath.Ssthresh | tcp_evil.c:169-177 | the threshold is at least 2, and at most the window when the window is at least 2 |
| EvilMath.SsthreshApproximates | tcp_evil.c:173-175 | no step wraps, and 29 * cwnd - 83 <= 32 * base <= 29 * cwnd + 16 before the floor of 2 |
| EvilMath.SsthreshMonotone | tcp_evil.c:169-177 | a larger window never gives a smaller threshold |
| EvilMath.SsthreshOfTen | tcp_evil.c:169-177 | a window of 10 gives a threshold of 8 |
| EvilModel.RecalcParam | tcp_evil.c:39-47 | rho_3ls = RhoQ3(srtt, rtt0) >= 8, rho >= 1, the rho fields consistent with one another, and nothing else changed |
| EvilModel.Init | tcp_evil.c:49-69 | enabled, accumulator 0, clamp 65535, minrtt = srtt, cwnd = rho >= 1, invariant established, ssthresh, counter and srtt untouched |
| EvilModel.SetState | tcp_evil.c:71-75 | enabled exactly in TCP_CA_Open; nothing else changes |
| EvilModel.RefreshRho | tcp_evil.c:99-103 | minrtt becomes min(minrtt, srtt); on a new minimum rho is derived from srtt, otherwise the state is unchanged; nothing but minrtt and the rho fields changes |
| EvilModel.Prepared | tcp_evil.c:113-114 | afterwards rho >= 1; a nonzero rho is left as it is, a zero rho is recomputed from srtt (consistent fields, rho_3ls = RhoQ3(srtt, rtt0)); only the rho fields may change |
| EvilModel.Increment | tcp_evil.c:116-145 | the increment of this ACK; in congestion avoidance it is 0 exactly when rho2_7ls < W (`SlowStartIncrementOfConn` gives the slow-start value) |
| EvilModel.AfterCarry | tcp_evil.c:143-156 | counter bump and carry: the accumulator ends below 128 and only window, counter and accumulator change (`AfterCarryExact` gives the Q7 balance) |
| EvilModel.StallAndClamp | tcp_evil.c:157-166 | anti-stall and clamps: the window ends within the clamp, and within ssthresh in slow start; only window and counter change (`AntiStall` gives the anti-stall step) |
| EvilModel.Grow | tcp_evil.c:113-166 | the growth law: rho >= 1 and the accumulator below 128 afterwards; flag, minrtt, srtt, ssthresh and clamp untouched (`GrowExact`, `GrowClamped`, `GrowNeverShrinks`) |
| EvilModel.CongAvoid | tcp_evil.c:92-167 | minrtt becomes min(minrtt, srtt); not limited: window, counter and accumulator kept; disabled: Reno's window and counter; enabled: window within the clamp and accumulator below 128 (`CongAvoidValid`, `RunMonotone`) |
| EvilModel.RecalcParamIdempotent | tcp_evil.c:39-47 | recalculating twice equals once, and any two states with the same srtt get the same rho fields |
| EvilModel.SetStateValid | tcp_evil.c:71-75 | `evil_state` keeps the invariant |
| EvilModel.CongAvoidRhoRefresh | tcp_evil.c:99-103 | from any state, minrtt becomes min(minrtt, srtt); rho is left alone unless there is a new minimum or it is 0; on a new minimum it is derived from the new srtt |
| EvilModel.CongAvoidNotLimited | tcp_evil.c:105-106 | a connection that is not window-limited keeps cwnd, counter, accumulator, flag, ssthresh and clamp |
| EvilModel.CongAvoidDisabled | tcp_evil.c:108-111 | when disabled, cwnd and counter are Reno's outcome and the accumulator is untouched |
| EvilModel.PreparedValid | tcp_evil.c:113-114 | after the rho == 0 check, rho >= 1 and nothing but the rho fields changed |
| EvilModel.SlowStartIncrementOfConn | tcp_evil.c:116-134 | in slow start the Q3 digits always index the table (never the fallback) and the increment is exact and in [128, 65536 * 234 - 128] |
| EvilModel.GrowValid | tcp_evil.c:113-166 | the growth law keeps the accumulator below 128 and the rho fields consistent |
| EvilModel.CongAvoidValid | tcp_evil.c:92-167 | `evil_cong_avoid` keeps the invariant on every path |
| EvilModel.GrowClamped | tcp_evil.c:162-166 | after the growth law cwnd <= clamp, and cwnd <= ssthresh when the ACK was in slow start |
| EvilModel.AfterCarryExact | tcp_evil.c:143-156 | the carry is exact in Q7, the new cwnd is the integer part of the Q7 total, and only cwnd, counter and accumulator change |
| EvilModel.GrowExact | tcp_evil.c:113-166 | for a nonzero increment, the new accumulator is the Q7 total mod 128 and the new cwnd is the Q7 total div 128, clamped to ssthresh (slow start) and to the clamp |
| EvilModel.GrowNeverShrinks | tcp_evil.c:113-166 | from a window within the clamp, the growth law never shrinks it |
| EvilModel.AvoidanceCounter | tcp_evil.c:142-156 | in congestion avoidance, for a nonzero increment, the counter resets exactly when a unit is drained, and otherwise grows by one exactly when the increment is below 128 |
| EvilModel.AntiStall | tcp_evil.c:142-161 | with rho2_7ls below cwnd the increment is 0 and the ACK is counted; once the count reaches cwnd, cwnd gains exactly 1 and the count restarts, otherwise cwnd stays |
| EvilModel.AckKeepsRunnable | tcp_evil.c:92-167 | an enabled, window-limited ACK keeps the invariant and the bounds, and does not shrink the window |
| EvilModel.RunMonotone | tcp_evil.c:92-167 | across any run of enabled, window-limited ACKs the window never decreases and stays within the clamp |
| EvilModel.AntiStallEventually | tcp_evil.c:142-161 | with a zero increment, after cwnd - cnt ACKs the window has gained exactly one unit and the counter is 0 |
| EvilModel.FirstAckAfterInit | tcp_evil.c:49-167 | with srtt = 8 * rtt0 and ssthresh >= 2, init gives rho_3ls = 8, rho = 1, cwnd = 1; the first slow-start ACK adds exactly 128 and cwnd becomes 2 |
| EvilModel.InitRunnable | tcp_evil.c:49-69 | `evil_init` leaves a state that starts a monotone run of ACKs exactly when rho_3ls < 8 * 65536 |
| EvilModel.InitAboveClampShrinks | tcp_evil.c:60-68 | for rho_3ls >= 8 * 65536 the initial window is above the 65535 clamp, and the first enabled, window-limited ACK brings it down to at most 65535 |
| EvilSock.Connection.constructor | tcp_evil.c:21-29 | a connection whose private area is still zeroed, which satisfies the invariant |
| EvilSock.Connection.RecalcParam | tcp_evil.c:39-47 | the new state is `EvilModel.RecalcParam` of the old; rho_3ls >= 8 and rho >= 1 |
| EvilSock.Connection.Init | tcp_evil.c:49-69 | the new state is `EvilModel.Init` of the old; invariant, flag, accumulator, clamp, minrtt and cwnd = rho >= 1 |
| EvilSock.Connection.SetState | tcp_evil.c:71-75 | the new state is `EvilModel.SetState` of the old; enabled exactly in TCP_CA_Open; invariant kept |
| EvilSock.Connection.CongAvoid | tcp_evil.c:92-167 | the new state is `EvilModel.CongAvoid` of the old, and the invariant is kept |
| EvilSock.Connection.Grow | tcp_evil.c:113-166 | the new state is `EvilModel.Grow` of the old |
| EvilSock.Connection.NextIncrement | tcp_evil.c:116-145 | reports the phase and `EvilModel.Increment`; in congestion avoidance the counter is bumped exactly when the increment is below 128 |
| EvilSock.Connection.AddIncrement | tcp_evil.c:147-156 | the drain loop leaves cwnd, accumulator and counter equal to the closed form `CarryIncrement`, for any accumulator on entry |
| EvilSock.Connection.StallAndClamp | tcp_evil.c:157-166 | the new state is `EvilModel.StallAndClamp` of the old |
| EvilSock.Connection.Ssthresh | tcp_evil.c:169-177 | reads the window only; at least 2, and at most the window when it is at least 2 |

## Left out

- Module registration (`tcp_congestion_ops`, `module_init`/`module_exit`, `BUILD_BUG_ON`, `EXPORT_SYMBOL_GPL`, `MODULE_*`, tcp_evil.c:178-207) is kernel plumbing and is not modelled. `tcp_reno_min_cwnd` is a kernel routine that the table only names.
- The `rtt0` module parameter and `msecs_to_jiffies` (tcp_evil.c:33-35, 43) are left out. The reference RTT is passed in, already in jiffies.
- A zero reference RTT would divide by zero at tcp_evil.c:43, so every callback requires `rtt0 > 0`.
- A zero window would divide by zero at tcp_evil.c:142. Callers must pass a positive window whenever the model is enabled, window-limited and in congestion avoidance.
- `tcp_reno_cong_avoid` (tcp_evil.c:109) is a kernel routine that is not part of this model. Its effect is reduced to the window and ACK counter it leaves behind, given as `renoCwnd` and `renoCnt`.
- `tcp_is_cwnd_limited` (tcp_evil.c:105) is a kernel predicate. It is the boolean input `limited`.
- The `ack` and `in_flight` arguments of `evil_cong_avoid` are used only by those two routines, so they do not appear.
- How the transport measures and smooths `srtt` is not modelled. `srtt` is a field the caller sets, and in runs of ACKs there is one sample per ACK.
- The `asm/i387.h` include (tcp_evil.c:18) is not modelled, because no floating point is used.
- Concurrency is not modelled. The kernel serialises the callbacks of one socket.
- EvilMath.CarryConserves: assumes the window has room for the step without wrapping past 2^32. The wrapped behaviour itself is kept in `CarryIncrement`.
- EvilModel.AfterCarryExact: assumes the window is at least 2^25 below 2^32, so that one ACK cannot wrap it.
- EvilModel.GrowExact: assumes the same headroom. It states nothing for a zero increment, which the anti-stall lemmas cover instead.
- EvilModel.GrowNeverShrinks: assumes the same headroom and a window that starts within the clamp. A window above the clamp is cut down to it.
- EvilModel.AvoidanceCounter: assumes the same headroom, and assumes the counter is below 2^32 - 1 so that its increment does not wrap.
- EvilModel.AntiStall: assumes the window is below the clamp, the counter does not wrap, and rho is already set. A zero increment is reached through rho2_7ls < cwnd.
- EvilModel.AckKeepsRunnable: covers enabled, window-limited ACKs with the clamp at least 2^25 below 2^32. Reno's steps are not part of a run.
- EvilModel.RunMonotone: covers the same runs as `AckKeepsRunnable`.
- EvilModel.AntiStallEventually: assumes an unchanged RTT and rho2_7ls below the window throughout, so that every increment is zero.
