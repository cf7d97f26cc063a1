/** The expiry sweep `RemoveExpiredTribesProtection` as a function of the whole list,
    and what makes it a closure over tribes. */
module Sweep {
  import opened Time
  import opened Players

  /** What a sweep reads besides the lists. */
  datatype Limits = Limits(admins: set<Id>, maxLevel: int, hours: int, now: int)

  predicate Expired(p: Player, lim: Limits) {
    Due(p.start, lim.now - lim.hours * TICKS_PER_HOUR)
  }

  /** The three-way test that takes protection from a tribe. */
  predicate Spent(p: Player, lim: Limits) {
    Expired(p, lim) || p.level >= lim.maxLevel || p.flag == 0
  }

  predicate TribeSpent(all: seq<Player>, lim: Limits, tribe: Tribe) {
    exists j :: 0 <= j < |all| && Member(all[j], lim.admins, tribe) && Spent(all[j], lim)
  }

  function SweepPlayer(all: seq<Player>, lim: Limits, p: Player): Player {
    if p.id !in lim.admins && TribeSpent(all, lim, p.tribe) then p.(flag := 0) else p
  }

  function SweepAll(all: seq<Player>, lim: Limits): (r: seq<Player>)
    ensures |r| == |all|
  {
    seq(|all|, i requires 0 <= i < |all| => SweepPlayer(all, lim, all[i]))
  }

  function SweepOnline(all: seq<Player>, online: seq<OnlinePlayer>, lim: Limits): (r: seq<OnlinePlayer>)
    ensures |r| == |online|
  {
    seq(|online|, i requires 0 <= i < |online| =>
      online[i].(data := SweepPlayer(all, lim, online[i].data)))
  }

  /** Tribe closure: a non-admin is flagged after the sweep exactly when every non-admin
      record of the tribe was flagged, under the level limit and had a full second left;
      nothing but non-admin flags changes. */
  lemma SweepIsTribeClosure(all: seq<Player>, lim: Limits, i: nat)
    requires i < |all|
    ensures var r := SweepAll(all, lim)[i];
            && r == all[i].(flag := r.flag)
            && (all[i].id in lim.admins ==> r == all[i])
            && (all[i].id !in lim.admins ==>
                  (r.flag != 0 <==>
                   forall j :: 0 <= j < |all| && Member(all[j], lim.admins, all[i].tribe) ==>
                     && all[j].flag != 0
                     && all[j].level < lim.maxLevel
                     && all[j].start + lim.hours * TICKS_PER_HOUR - lim.now >= TICKS_PER_SECOND))
            && (r.flag == all[i].flag || r.flag == 0)
  {
  }

  /** A sweep that was missed loses nothing: an earlier sweep changes no later one.
      At equal instants this is idempotence. */
  lemma SweepCatchesUp(all: seq<Player>, lim: Limits, earlier: int)
    requires earlier <= lim.now
    ensures SweepAll(SweepAll(all, lim.(now := earlier)), lim) == SweepAll(all, lim)
  {
    var before := lim.(now := earlier);
    var mid := SweepAll(all, before);
    forall p: Player
      ensures Spent(p, before) ==> Spent(p, lim)
    {
      DueExactly(p.start, earlier - lim.hours * TICKS_PER_HOUR);
      DueExactly(p.start, lim.now - lim.hours * TICKS_PER_HOUR);
    }
    forall i | 0 <= i < |all|
      ensures SweepAll(mid, lim)[i] == SweepAll(all, lim)[i]
    {
      SpentAgrees(all, mid, before, lim, all[i].tribe);
    }
  }

  lemma SpentAgrees(all: seq<Player>, mid: seq<Player>, before: Limits, lim: Limits, tribe: Tribe)
    requires before == lim.(now := before.now)
    requires mid == SweepAll(all, before)
    requires forall p: Player :: Spent(p, before) ==> Spent(p, lim)
    ensures TribeSpent(mid, lim, tribe) <==> TribeSpent(all, lim, tribe)
  {
    if TribeSpent(all, lim, tribe) {
      var j :| 0 <= j < |all| && Member(all[j], lim.admins, tribe) && Spent(all[j], lim);
      assert Member(mid[j], lim.admins, tribe) && Spent(mid[j], lim);
    }
    if TribeSpent(mid, lim, tribe) {
      var j :| 0 <= j < |mid| && Member(mid[j], lim.admins, tribe) && Spent(mid[j], lim);
      if TribeSpent(all, before, tribe) {
        var k :| 0 <= k < |all| && Member(all[k], lim.admins, tribe) && Spent(all[k], before);
        assert Spent(all[k], lim);
      } else {
        assert mid[j] == all[j];
      }
    }
  }

  function Map(f: Player -> Player, s: seq<Player>): (r: seq<Player>)
    ensures |r| == |s|
  {
    seq(|s|, i requires 0 <= i < |s| => f(s[i]))
  }

  function Without(s: seq<Player>, j: nat): seq<Player>
    requires j < |s|
  {
    s[..j] + s[j + 1..]
  }

  lemma WithoutOne(s: seq<Player>, j: nat)
    requires j < |s|
    ensures multiset(s) == multiset(Without(s, j)) + multiset{s[j]}
    ensures multiset(Without(s, j)) == multiset(s) - multiset{s[j]}
  {
    assert s == s[..j] + [s[j]] + s[j + 1..];
  }

  lemma MapWithout(f: Player -> Player, s: seq<Player>, j: nat)
    requires j < |s|
    ensures Map(f, Without(s, j)) == Without(Map(f, s), j)
  {
  }

  lemma {:induction false} MapReordered(f: Player -> Player, s: seq<Player>, t: seq<Player>)
    requires multiset(s) == multiset(t)
    ensures multiset(Map(f, s)) == multiset(Map(f, t))
    decreases |s|
  {
    assert |multiset(s)| == |multiset(t)|;
    if s != [] {
      assert s[0] in multiset(t);
      var j :| 0 <= j < |t| && t[j] == s[0];
      WithoutOne(s, 0);
      WithoutOne(t, j);
      MapReordered(f, Without(s, 0), Without(t, j));
      MapWithout(f, s, 0);
      MapWithout(f, t, j);
      WithoutOne(Map(f, s), 0);
      WithoutOne(Map(f, t), j);
    }
  }

  lemma SpentReordered(all: seq<Player>, other: seq<Player>, lim: Limits, tribe: Tribe)
    requires multiset(all) == multiset(other)
    ensures TribeSpent(all, lim, tribe) ==> TribeSpent(other, lim, tribe)
  {
    if TribeSpent(all, lim, tribe) {
      var j :| 0 <= j < |all| && Member(all[j], lim.admins, tribe) && Spent(all[j], lim);
      assert all[j] in multiset(other);
    }
  }

  /** The order in which the single pass visits the records does not matter. */
  lemma SweepIgnoresOrder(all: seq<Player>, other: seq<Player>, lim: Limits)
    requires multiset(all) == multiset(other)
    ensures forall p :: SweepPlayer(all, lim, p) == SweepPlayer(other, lim, p)
    ensures multiset(SweepAll(all, lim)) == multiset(SweepAll(other, lim))
  {
    forall p: Player
      ensures SweepPlayer(all, lim, p) == SweepPlayer(other, lim, p)
    {
      SpentReordered(all, other, lim, p.tribe);
      SpentReordered(other, all, lim, p.tribe);
    }
    var f := p => SweepPlayer(all, lim, p);
    MapReordered(f, all, other);
    assert SweepAll(all, lim) == Map(f, all);
    assert SweepAll(other, lim) == Map(f, other);
  }

  /** `ResetPlayerProtection` raises every flag before it sweeps. */
  function RaiseAll(all: seq<Player>): (r: seq<Player>)
    ensures |r| == |all|
  {
    seq(|all|, i requires 0 <= i < |all| => all[i].(flag := 1))
  }

  function RaiseOnline(online: seq<OnlinePlayer>): (r: seq<OnlinePlayer>)
    ensures |r| == |online|
  {
    seq(|online|, i requires 0 <= i < |online| => online[i].(data := online[i].data.(flag := 1)))
  }

  /** After a reload protection is recomputed from ages and levels alone: the old flags,
      even those of admins, leave no trace. */
  lemma ResetForgetsFlags(all: seq<Player>, other: seq<Player>, lim: Limits, i: nat)
    requires |all| == |other| && i < |all|
    requires forall j :: 0 <= j < |all| ==> other[j] == all[j].(flag := other[j].flag)
    ensures SweepAll(RaiseAll(all), lim) == SweepAll(RaiseAll(other), lim)
    ensures var r := SweepAll(RaiseAll(all), lim)[i];
            r.flag == (if all[i].id !in lim.admins
                          && exists j :: 0 <= j < |all| && Member(all[j], lim.admins, all[i].tribe)
                                         && (Expired(all[j], lim) || all[j].level >= lim.maxLevel)
                       then 0 else 1)
  {
    assert RaiseAll(all) == RaiseAll(other);
    var up := RaiseAll(all);
    assert TribeSpent(up, lim, all[i].tribe) <==>
           exists j :: 0 <= j < |all| && Member(all[j], lim.admins, all[i].tribe)
                       && (Expired(all[j], lim) || all[j].level >= lim.maxLevel) by {
      if TribeSpent(up, lim, all[i].tribe) {
        var j :| 0 <= j < |up| && Member(up[j], lim.admins, all[i].tribe) && Spent(up[j], lim);
        assert Member(all[j], lim.admins, all[i].tribe);
      }
      if j :| 0 <= j < |all| && Member(all[j], lim.admins, all[i].tribe)
              && (Expired(all[j], lim) || all[j].level >= lim.maxLevel) {
        assert Member(up[j], lim.admins, all[i].tribe) && Spent(up[j], lim);
      }
    }
  }
}
