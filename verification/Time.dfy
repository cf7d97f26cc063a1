/** Clock arithmetic of `std::chrono::system_clock`: instants and durations are
    whole numbers of 100 ns ticks, and `duration_cast` truncates toward zero. */
module Time {
  const TICKS_PER_MILLISECOND: int := 10_000
  const TICKS_PER_SECOND: int := 10_000_000
  const TICKS_PER_MINUTE: int := 600_000_000
  const TICKS_PER_HOUR: int := 36_000_000_000

  /** Instants are counted in 64 bits; a sum that leaves their range wraps around. */
  const FIRST_TICK: int := -0x8000_0000_0000_0000
  const LAST_TICK: int := 0x7FFF_FFFF_FFFF_FFFF
  const TICK_RANGE: int := 0x1_0000_0000_0000_0000

  predicate IsTick(x: int) {
    FIRST_TICK <= x <= LAST_TICK
  }

  function Wrap(x: int): (r: int)
    ensures IsTick(r) && (IsTick(x) ==> r == x)
  {
    (x - FIRST_TICK) % TICK_RANGE + FIRST_TICK
  }

  /** Wrapping at every step or once at the end makes no difference. */
  lemma WrapSum(x: int, y: int)
    ensures Wrap(Wrap(x) + Wrap(y)) == Wrap(x + y)
  {
    hide Wrap;
    var p := WrapTurns(x);
    var q := WrapTurns(y);
    WrapPeriod(x + y, -(p + q));
  }

  lemma {:induction false} WrapTurns(x: int) returns (q: int)
    ensures Wrap(x) == x - q * TICK_RANGE
  {
    q := (x - FIRST_TICK) / TICK_RANGE;
  }

  lemma {:induction false} WrapPeriod(x: int, q: int)
    ensures Wrap(x + q * TICK_RANGE) == Wrap(x)
  {
    var a := x - FIRST_TICK;
    assert (a + q * TICK_RANGE) % TICK_RANGE == a % TICK_RANGE;
  }

  lemma WrapBelow(x: int)
    requires LAST_TICK < x <= LAST_TICK + TICK_RANGE
    ensures Wrap(x) == x - TICK_RANGE
  {
  }

  /** `duration_cast` from ticks to a coarser unit. */
  function Truncate(ticks: int, unit: int): int
    requires 0 < unit
  {
    if 0 <= ticks then ticks / unit else -((-ticks) / unit)
  }

  /** The gate shared by the message throttle, the player update and the expiry test. */
  predicate Due(deadline: int, now: int) {
    Truncate(deadline - now, TICKS_PER_SECOND) <= 0
  }

  /** Truncation opens the gate up to one second early, never earlier. */
  lemma DueExactly(deadline: int, now: int)
    ensures Due(deadline, now) <==> deadline - now < TICKS_PER_SECOND
  {
  }

  /** The instants among `calls` at which a gate answers "ready"; each ready answer
      moves the deadline to `interval` seconds after the call. */
  function Ready(calls: seq<int>, deadline: int, interval: int): seq<int> {
    if calls == [] then []
    else if Due(deadline, calls[0]) then
      [calls[0]] + Ready(calls[1..], calls[0] + interval * TICKS_PER_SECOND, interval)
    else
      Ready(calls[1..], deadline, interval)
  }

  /** The deadline left behind by a sequence of calls. */
  function DeadlineAfter(calls: seq<int>, deadline: int, interval: int): int {
    if calls == [] then deadline
    else
      DeadlineAfter(calls[1..],
                    if Due(deadline, calls[0]) then calls[0] + interval * TICKS_PER_SECOND else deadline,
                    interval)
  }

  lemma {:induction false} ReadyAppend(calls: seq<int>, now: int, deadline: int, interval: int)
    ensures var d := DeadlineAfter(calls, deadline, interval);
            && Ready(calls + [now], deadline, interval)
               == Ready(calls, deadline, interval) + (if Due(d, now) then [now] else [])
            && DeadlineAfter(calls + [now], deadline, interval)
               == (if Due(d, now) then now + interval * TICKS_PER_SECOND else d)
  {
    if calls == [] {
      assert calls + [now] == [now];
      assert [now][1..] == [];
    } else {
      assert (calls + [now])[1..] == calls[1..] + [now];
      var d := if Due(deadline, calls[0]) then calls[0] + interval * TICKS_PER_SECOND else deadline;
      ReadyAppend(calls[1..], now, d, interval);
    }
  }

  lemma {:induction false} ReadyNotEarly(calls: seq<int>, deadline: int, interval: int)
    ensures var r := Ready(calls, deadline, interval);
            r != [] ==> deadline - r[0] < TICKS_PER_SECOND
  {
    if calls != [] {
      if Due(deadline, calls[0]) {
        DueExactly(deadline, calls[0]);
      } else {
        ReadyNotEarly(calls[1..], deadline, interval);
      }
    }
  }

  lemma OneGapMore(k: nat, gap: int)
    ensures (k + 1) * gap == k * gap + gap
    ensures k == 0 ==> k * gap == 0
  {
  }

  /** Rate limit with truncation: `k` ready answers span more than
      `(k - 1) * (interval - 1)` seconds, whatever the calls in between. */
  lemma {:induction false} ReadySpan(calls: seq<int>, deadline: int, interval: int)
    ensures var r := Ready(calls, deadline, interval);
            |r| >= 2 ==> r[|r| - 1] - r[0] > (|r| - 1) * ((interval - 1) * TICKS_PER_SECOND)
  {
    if calls != [] {
      var r := Ready(calls, deadline, interval);
      if !Due(deadline, calls[0]) {
        ReadySpan(calls[1..], deadline, interval);
      } else {
        var d := calls[0] + interval * TICKS_PER_SECOND;
        var rest := Ready(calls[1..], d, interval);
        assert r == [calls[0]] + rest;
        if rest != [] {
          ReadyNotEarly(calls[1..], d, interval);
          ReadySpan(calls[1..], d, interval);
          OneGapMore(|rest| - 1, (interval - 1) * TICKS_PER_SECOND);
        }
      }
    }
  }
}
