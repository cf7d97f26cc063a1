/** What AddProtection and ResetProtection give a tribe. The shift of AddProtection
    accumulates: the `k`-th member starts `k` shifts from now. */
module Grants {
  import opened Time
  import opened Players
  import opened Sweep
  import opened Protection
  import opened Lifetime

  /** The conversions lose nothing exactly when the difference fits 32 bits. */
  lemma HoursDeltaExact(hours: nat, protection: int)
    ensures HoursDelta(hours, protection) == hours - protection <==>
            -0x8000_0000 <= hours - protection < 0x8000_0000
  {
  }

  lemma {:induction false} FirstMember(all: seq<Player>, admins: set<Id>, tribe: Tribe) returns (i: nat)
    requires CountMembers(all, admins, tribe) > 0
    ensures i < |all| && Member(all[i], admins, tribe) && CountMembers(all[..i + 1], admins, tribe) == 1
    decreases |all|
  {
    var n := |all| - 1;
    if CountMembers(all[..n], admins, tribe) > 0 {
      i := FirstMember(all[..n], admins, tribe);
      assert all[..n][..i + 1] == all[..i + 1];
    } else {
      i := n;
      assert all[..n + 1] == all;
    }
  }

  lemma {:induction false} LastMember(all: seq<Player>, admins: set<Id>, tribe: Tribe) returns (i: nat)
    requires CountMembers(all, admins, tribe) > 0
    ensures i < |all| && Member(all[i], admins, tribe)
    ensures CountMembers(all[..i + 1], admins, tribe) == CountMembers(all, admins, tribe)
    decreases |all|
  {
    var n := |all| - 1;
    if Member(all[n], admins, tribe) {
      i := n;
      assert all[..n + 1] == all;
    } else {
      i := LastMember(all[..n], admins, tribe);
      assert all[..n][..i + 1] == all[..i + 1];
    }
  }

  lemma {:induction false} RankOfMember(all: seq<Player>, i: nat, admins: set<Id>, tribe: Tribe)
    requires i < |all| && Member(all[i], admins, tribe)
    ensures 1 <= CountMembers(all[..i + 1], admins, tribe) <= CountMembers(all, admins, tribe)
    decreases |all|
  {
    var n := |all| - 1;
    if i < n {
      RankOfMember(all[..n], i, admins, tribe);
      assert all[..n][..i + 1] == all[..i + 1];
    } else {
      assert all[..i + 1] == all;
    }
  }

  function Min(a: int, b: int): int {
    if a <= b then a else b
  }

  lemma MultipleBetween(k: int, n: int, d: int)
    requires 1 <= k <= n
    ensures Min(d, n * d) <= k * d
  {
  }

  /** The earliest start time AddProtection hands out in a tribe. */
  lemma {:induction false} EarliestStart(all: seq<Player>, admins: set<Id>, tribe: Tribe, now: int, delta: int)
    returns (least: nat)
    requires CountMembers(all, admins, tribe) > 0
    ensures var granted := GrantAll(all, admins, tribe, now, delta);
            && least < |all| && Member(granted[least], admins, tribe)
            && granted[least].start == now + Min(delta, CountMembers(all, admins, tribe) * delta)
            && forall i :: 0 <= i < |all| && Member(granted[i], admins, tribe) ==>
                 granted[i].start >= granted[least].start
  {
    var n := CountMembers(all, admins, tribe);
    var granted := GrantAll(all, admins, tribe, now, delta);
    if delta <= n * delta {
      least := FirstMember(all, admins, tribe);
    } else {
      least := LastMember(all, admins, tribe);
    }
    forall i | 0 <= i < |all| && Member(granted[i], admins, tribe)
      ensures granted[i].start >= now + Min(delta, n * delta)
    {
      assert Member(all[i], admins, tribe);
      RankOfMember(all, i, admins, tribe);
      MultipleBetween(CountMembers(all[..i + 1], admins, tribe), n, delta);
    }
  }

  predicate SomeExpired(all: seq<Player>, lim: Limits, tribe: Tribe) {
    exists i :: 0 <= i < |all| && Member(all[i], lim.admins, tribe) && Expired(all[i], lim)
  }

  /** The age test of a tribe looks at its earliest start only. */
  lemma {:induction false} AgeOfEarliest(all: seq<Player>, lim: Limits, tribe: Tribe, least: nat)
    requires least < |all| && Member(all[least], lim.admins, tribe)
    requires forall i :: 0 <= i < |all| && Member(all[i], lim.admins, tribe) ==> all[i].start >= all[least].start
    ensures !SomeExpired(all, lim, tribe) <==>
            all[least].start + lim.hours * TICKS_PER_HOUR - lim.now >= TICKS_PER_SECOND
  {
  }

  lemma {:induction false} EligibleCounts(s: State, tribe: Tribe)
    requires Eligible(s, tribe)
    ensures CountMembers(s.all, AdminsOf(s), tribe) >= 1
  {
    var k :| 0 <= k < |s.all| && Member(s.all[k], AdminsOf(s), tribe);
    RankOfMember(s.all, k, AdminsOf(s), tribe);
  }

  /** Closed form: a tribe of `n` members passes the age test of a sweep at `later` exactly
      while `now + HoursOfProtection + min(delta, n * delta)` is at least a second away. */
  lemma {:induction false} GrantedAge(s: State, tribe: Tribe, now: int, delta: int, later: int)
    requires Eligible(s, tribe)
    ensures var t := Grant(s, tribe, now, delta);
            var n := CountMembers(s.all, AdminsOf(s), tribe);
            !SomeExpired(t.all, LimitsOf(s, later), tribe) <==>
            now + s.cfg.hours * TICKS_PER_HOUR + Min(delta, n * delta) - later >= TICKS_PER_SECOND
  {
    EligibleCounts(s, tribe);
    var least := EarliestStart(s.all, AdminsOf(s), tribe, now, delta);
    AgeOfEarliest(Grant(s, tribe, now, delta).all, LimitsOf(s, later), tribe, least);
  }

  /** Two deadlines describe the same age test only if they are equal. */
  lemma {:induction false} SameDeadline(all: seq<Player>, s: State, tribe: Tribe, a: int, b: int)
    requires forall later :: !SomeExpired(all, LimitsOf(s, later), tribe) <==> a - later >= TICKS_PER_SECOND
    ensures (forall later :: !SomeExpired(all, LimitsOf(s, later), tribe) <==> b - later >= TICKS_PER_SECOND)
            <==> a == b
  {
    if a != b {
      var later := (if a < b then b else a) - TICKS_PER_SECOND;
      assert !SomeExpired(all, LimitsOf(s, later), tribe) <==> a - later >= TICKS_PER_SECOND;
    }
  }

  /** ResetProtection gives every tribe the configured hours from now. */
  lemma {:induction false} ResetAge(s: State, tribe: Tribe, now: int, later: int)
    requires Eligible(s, tribe)
    ensures !SomeExpired(ResetProtection(s, tribe, now).all, LimitsOf(s, later), tribe) <==>
            now + s.cfg.hours * TICKS_PER_HOUR - later >= TICKS_PER_SECOND
  {
    GrantedAge(s, tribe, now, 0, later);
  }

  // ---------------------------------------------------------------- in 64 bits

  /** The running time after `k` times `now += delta`. */
  function Running(now: int, delta: int, k: nat): int {
    if k == 0 then now else Wrap(Running(now, delta, k - 1) + Wrap(delta))
  }

  function StartOf(now: int, delta: int, k: nat): int {
    Wrap(now + k * delta)
  }

  /** The 64-bit sums of the loop are the sums of the model, wrapped. */
  lemma {:induction false} RunningIsWrapped(now: int, delta: int, k: nat)
    requires IsTick(now)
    ensures Running(now, delta, k) == StartOf(now, delta, k)
  {
    hide Wrap;
    if k > 0 {
      RunningIsWrapped(now, delta, k - 1);
      OneGapMore(k - 1, delta);
      WrapSum(now + (k - 1) * delta, delta);
    }
  }

  /** The records with their start times as 64 bits hold them. */
  function Stored64(all: seq<Player>): (r: seq<Player>)
    ensures |r| == |all|
  {
    seq(|all|, i requires 0 <= i < |all| => all[i].(start := Wrap(all[i].start)))
  }

  lemma {:induction false} MemberOfRank(all: seq<Player>, admins: set<Id>, tribe: Tribe, k: nat) returns (i: nat)
    requires 1 <= k <= CountMembers(all, admins, tribe)
    ensures i < |all| && Member(all[i], admins, tribe) && CountMembers(all[..i + 1], admins, tribe) == k
    decreases |all|
  {
    var n := |all| - 1;
    if k <= CountMembers(all[..n], admins, tribe) {
      i := MemberOfRank(all[..n], admins, tribe, k);
      assert all[..n][..i + 1] == all[..i + 1];
    } else {
      i := n;
      assert all[..n + 1] == all;
    }
  }

  lemma {:induction false} LeastMember(all: seq<Player>, admins: set<Id>, tribe: Tribe) returns (least: nat)
    requires CountMembers(all, admins, tribe) > 0
    ensures least < |all| && Member(all[least], admins, tribe)
    ensures forall i :: 0 <= i < |all| && Member(all[i], admins, tribe) ==> all[i].start >= all[least].start
    decreases |all|
  {
    var n := |all| - 1;
    if CountMembers(all[..n], admins, tribe) == 0 {
      least := n;
      forall i | 0 <= i < n
        ensures !Member(all[i], admins, tribe)
      {
        if Member(all[..n][i], admins, tribe) {
          RankOfMember(all[..n], i, admins, tribe);
        }
      }
    } else {
      least := LeastMember(all[..n], admins, tribe);
      assert forall i :: 0 <= i < n ==> all[..n][i] == all[i];
      if Member(all[n], admins, tribe) && all[n].start < all[least].start {
        least := n;
      }
    }
  }

  lemma {:induction false} GrantedStart(s: State, tribe: Tribe, now: int, delta: int, i: nat)
    requires Eligible(s, tribe) && i < |s.all|
    ensures var all := Stored64(Grant(s, tribe, now, delta).all);
            && |all| == |s.all|
            && (Member(all[i], AdminsOf(s), tribe) <==> Member(s.all[i], AdminsOf(s), tribe))
            && (Member(s.all[i], AdminsOf(s), tribe) ==>
                  all[i].start == StartOf(now, delta, CountMembers(s.all[..i + 1], AdminsOf(s), tribe)))
  {
    hide Wrap, Eligible, Admins;
  }

  /** The start that the tribe is judged by after a grant, and the member rank that has it. */
  lemma {:induction false} LeastStart(s: State, tribe: Tribe, now: int, delta: int) returns (k: nat)
    requires Eligible(s, tribe)
    ensures var n := CountMembers(s.all, AdminsOf(s), tribe);
            var all := Stored64(Grant(s, tribe, now, delta).all);
            && 1 <= k <= n
            && (forall j :: 1 <= j <= n ==> StartOf(now, delta, j) >= StartOf(now, delta, k))
            && (forall later :: !SomeExpired(all, LimitsOf(s, later), tribe) <==>
                                StartOf(now, delta, k) + s.cfg.hours * TICKS_PER_HOUR - later >= TICKS_PER_SECOND)
  {
    hide Wrap, Eligible, SomeExpired, Admins, Grant, Stored64, StartOf, Member, CountMembers;
    EligibleCounts(s, tribe);
    var admins := AdminsOf(s);
    var n := CountMembers(s.all, admins, tribe);
    var all := Stored64(Grant(s, tribe, now, delta).all);
    GrantedStart(s, tribe, now, delta, 0);
    forall i | 0 <= i < |s.all|
      ensures Member(all[i], admins, tribe) <==> Member(s.all[i], admins, tribe)
      ensures Member(s.all[i], admins, tribe) ==>
                all[i].start == StartOf(now, delta, CountMembers(s.all[..i + 1], admins, tribe))
    {
      GrantedStart(s, tribe, now, delta, i);
    }
    SameCount(s.all, all, admins, tribe);
    var least := LeastMember(all, admins, tribe);
    k := CountMembers(s.all[..least + 1], admins, tribe);
    RankOfMember(s.all, least, admins, tribe);
    assert all[least].start == StartOf(now, delta, k);
    forall j | 1 <= j <= n
      ensures StartOf(now, delta, j) >= StartOf(now, delta, k)
    {
      var i := MemberOfRank(s.all, admins, tribe, j);
      assert all[i].start == StartOf(now, delta, j);
    }
    forall later: int
      ensures !SomeExpired(all, LimitsOf(s, later), tribe) <==>
              StartOf(now, delta, k) + s.cfg.hours * TICKS_PER_HOUR - later >= TICKS_PER_SECOND
    {
      AgeOfEarliest(all, LimitsOf(s, later), tribe, least);
    }
  }

  lemma {:induction false} SameCount(a: seq<Player>, b: seq<Player>, admins: set<Id>, tribe: Tribe)
    requires |a| == |b|
    requires forall i :: 0 <= i < |a| ==> (Member(b[i], admins, tribe) <==> Member(a[i], admins, tribe))
    ensures CountMembers(a, admins, tribe) == CountMembers(b, admins, tribe)
  {
    if a != [] {
      SameCount(a[..|a| - 1], b[..|b| - 1], admins, tribe);
    }
  }

  // ---------------------------------------------------------------- the requested duration

  /** `n` members can be given `extra` hours more than configured: for hours added the last sum
      must not overflow; hours taken away must not go round to a member that starts earlier. */
  predicate Grantable(now: int, n: nat, extra: int) {
    var delta := extra * TICKS_PER_HOUR;
    if extra >= 0 then now + n * delta <= LAST_TICK
    else now + delta >= FIRST_TICK && forall k :: 2 <= k <= n ==> StartOf(now, delta, k) >= now + delta
  }

  lemma {:induction false} FirstOver(now: int, delta: int, n: nat) returns (k: nat)
    requires delta >= 0 && now <= LAST_TICK < now + n * delta
    ensures 1 <= k <= n && now + (k - 1) * delta <= LAST_TICK < now + k * delta
  {
    if now + (n - 1) * delta <= LAST_TICK {
      k := n;
    } else {
      k := FirstOver(now, delta, n - 1);
    }
  }

  lemma MultipleGrows(k: int, n: int, delta: int)
    requires delta >= 0 && 1 <= k <= n
    ensures delta <= k * delta <= n * delta
  {
  }

  /** When nothing overflows the first member starts first. */
  lemma {:induction false} NoOverflow(now: int, delta: int, n: nat, k: nat)
    requires IsTick(now) && delta >= 0 && now + n * delta <= LAST_TICK && 1 <= k <= n
    requires forall j :: 1 <= j <= n ==> StartOf(now, delta, j) >= StartOf(now, delta, k)
    ensures StartOf(now, delta, k) == now + delta
  {
    hide Wrap;
    MultipleGrows(k, n, delta);
    MultipleGrows(1, n, delta);
    assert StartOf(now, delta, 1) >= StartOf(now, delta, k);
  }

  /** When a sum overflows, the member there starts before the first one was meant to. */
  lemma {:induction false} Overflow(now: int, delta: int, n: nat, k: nat)
    requires IsTick(now) && delta >= 0 && now + n * delta > LAST_TICK && 1 <= k <= n
    requires forall j :: 1 <= j <= n ==> StartOf(now, delta, j) >= StartOf(now, delta, k)
    ensures StartOf(now, delta, k) != now + delta
  {
    hide Wrap;
    if IsTick(now + delta) {
      var j := FirstOver(now, delta, n);
      OneGapMore(j - 1, delta);
      WrapBelow(now + j * delta);
      assert StartOf(now, delta, j) < now + delta;
    }
  }

  lemma {:induction false} LeastIsRequested(now: int, n: nat, extra: int, k: nat)
    requires IsTick(now) && 1 <= k <= n
    requires forall j :: 1 <= j <= n ==>
               StartOf(now, extra * TICKS_PER_HOUR, j) >= StartOf(now, extra * TICKS_PER_HOUR, k)
    ensures StartOf(now, extra * TICKS_PER_HOUR, k) == now + extra * TICKS_PER_HOUR <==> Grantable(now, n, extra)
  {
    hide Wrap;
    var delta := extra * TICKS_PER_HOUR;
    if extra >= 0 {
      if now + n * delta <= LAST_TICK {
        NoOverflow(now, delta, n, k);
      } else {
        Overflow(now, delta, n, k);
      }
    } else if now + delta >= FIRST_TICK {
      assert StartOf(now, delta, 1) == now + delta;
    }
  }

  lemma {:induction false} TooManyHours(now: int, n: nat, extra: int)
    requires IsTick(now) && n >= 1 && extra >= 0x8000_0000
    ensures !Grantable(now, n, extra) && !IsTick(now + extra * TICKS_PER_HOUR)
  {
    MultipleGrows(1, n, extra * TICKS_PER_HOUR);
  }

  /** AddProtection gives the requested duration exactly when its 64-bit sums allow it. */
  lemma {:induction false} RequestedAge(s: State, tribe: Tribe, hours: nat, now: int)
    requires Eligible(s, tribe) && IsTick(now)
    requires -0x8000_0000 <= s.cfg.hours < 0x8000_0000
    ensures var n := CountMembers(s.all, AdminsOf(s), tribe);
            var all := Stored64(AddProtection(s, tribe, hours, now).all);
            (forall later :: !SomeExpired(all, LimitsOf(s, later), tribe) <==>
                             now + hours * TICKS_PER_HOUR - later >= TICKS_PER_SECOND)
            <==> Grantable(now, n, hours - s.cfg.hours)
  {
    hide HoursDelta, Eligible, SomeExpired, CountMembers, Wrap, Grantable, Stored64, Grant;
    var extra := hours - s.cfg.hours;
    var n := CountMembers(s.all, AdminsOf(s), tribe);
    var delta := HoursDelta(hours, s.cfg.hours) * TICKS_PER_HOUR;
    var all := Stored64(Grant(s, tribe, now, delta).all);
    var k := LeastStart(s, tribe, now, delta);
    SameDeadline(all, s, tribe, StartOf(now, delta, k) + s.cfg.hours * TICKS_PER_HOUR, now + hours * TICKS_PER_HOUR);
    if extra < 0x8000_0000 {
      HoursDeltaExact(hours, s.cfg.hours);
      LeastIsRequested(now, n, extra, k);
    } else {
      TooManyHours(now, n, extra);
    }
  }

  /** For configured hours below 128 million, some fourteen thousand years, the condition is: for
      hours added the last sum fits 64 bits, and hours can be taken away from one member only. */
  lemma {:induction false} GrantableClosed(now: int, n: nat, hours: nat, configured: int)
    requires 0 <= now <= LAST_TICK && n >= 1 && configured < 128_000_000
    ensures Grantable(now, n, hours - configured) <==>
            if hours >= configured then now + n * ((hours - configured) * TICKS_PER_HOUR) <= LAST_TICK else n == 1
  {
    hide Wrap;
    var delta := (hours - configured) * TICKS_PER_HOUR;
    if hours < configured && n >= 2 {
      assert IsTick(now + 2 * delta);
      assert StartOf(now, delta, 2) < now + delta;
    }
  }

  // ---------------------------------------------------------------- two inputs

  const FIRST: Player := Player(1, 200_000, 0, 0, 1, 1)
  const SECOND: Player := Player(2, 200_000, 0, 0, 1, 1)

  function LoginOf(p: Player): Event {
    LoginEvent(p.id, p.tribe, p.start, [])
  }

  lemma {:induction false} NewRecord(s: State, p: Player)
    requires !Known(s.all, p.id) && !IsOnline(s.online, p.id) && p == Player(p.id, p.tribe, p.start, p.start, 1, 1)
    ensures var t := Next(s, LoginOf(p));
            && t.all == s.all + [p] && t.cfg == s.cfg
            && |t.online| == |s.online| + 1 && t.online[..|s.online|] == s.online
            && t.online[|s.online|].data.id == p.id
  {
    var all := AddNew(s.all, p.id, p.tribe, p.start);
    assert all[|s.all|].id == p.id;
    assert Find(all, p.id) == |s.all|;
  }

  /** Two players log in at time 0. */
  lemma {:induction false} TwoLogins(cfg: Config)
    ensures var s := RunAll(Initial(cfg, 0), [LoginOf(FIRST)]);
            s.all == [FIRST] && s.cfg == cfg
    ensures var s := RunAll(Initial(cfg, 0), [LoginOf(FIRST), LoginOf(SECOND)]);
            s.all == [FIRST, SECOND] && s.cfg == cfg
  {
    hide RunAll, Next;
    var s := Initial(cfg, 0);
    NewRecord(s, FIRST);
    RunOne(s, LoginOf(FIRST));
    var t := Next(s, LoginOf(FIRST));
    assert s.all + [FIRST] == [FIRST];
    NewRecord(t, SECOND);
    RunAppend(s, [LoginOf(FIRST)], [LoginOf(SECOND)]);
    RunOne(t, LoginOf(SECOND));
    assert [LoginOf(FIRST)] + [LoginOf(SECOND)] == [LoginOf(FIRST), LoginOf(SECOND)];
  }

  lemma {:induction false} CountTwo(admins: set<Id>)
    requires admins == {}
    ensures CountMembers([FIRST], admins, 200_000) == 1
    ensures CountMembers([FIRST, SECOND], admins, 200_000) == 2
  {
    assert [FIRST][..0] == [];
    assert [FIRST, SECOND][..1] == [FIRST];
  }

  /** Two members asked for 69 of 72 hours: the second one is put six hours back, not three. */
  lemma {:induction false} AddedHoursCounterexample(cfg: Config)
    requires !cfg.ignoreAdmins && cfg.maxLevel == 60 && cfg.hours == 72
    ensures var s := RunAll(Initial(cfg, 0), [LoginOf(FIRST), LoginOf(SECOND)]);
            var t := AddProtection(s, 200_000, 69, 0);
            && Eligible(s, 200_000)
            && |t.all| == 2 && t.all[1] == SECOND.(start := -6 * TICKS_PER_HOUR)
  {
    hide RunAll;
    TwoLogins(cfg);
    var s := RunAll(Initial(cfg, 0), [LoginOf(FIRST), LoginOf(SECOND)]);
    assert AdminsOf(s) == {};
    CountTwo({});
    assert Member(s.all[0], {}, 200_000) && Member(s.all[1], {}, 200_000);
    assert s.all[..2] == s.all;
  }

  /** One member asked for 300 million hours more than configured: the 64-bit sum wraps around,
      and the protection has expired at once. */
  lemma {:induction false} OverflowCounterexample(cfg: Config)
    requires !cfg.ignoreAdmins && cfg.maxLevel == 60 && cfg.hours == 72
    ensures var s := RunAll(Initial(cfg, 0), [LoginOf(FIRST)]);
            && Eligible(s, 200_000)
            && SomeExpired(Stored64(AddProtection(s, 200_000, 300_000_072, 0).all), LimitsOf(s, 0), 200_000)
  {
    hide RunAll;
    TwoLogins(cfg);
    var s := RunAll(Initial(cfg, 0), [LoginOf(FIRST)]);
    assert AdminsOf(s) == {};
    CountTwo({});
    assert Member(s.all[0], {}, 200_000);
    assert s.all[..1] == s.all;
    var all := Stored64(AddProtection(s, 200_000, 300_000_072, 0).all);
    assert Member(all[0], {}, 200_000) && all[0].start < 0 - 72 * TICKS_PER_HOUR;
  }
}
