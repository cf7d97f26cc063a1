/** The `status` chat command: how much protection a tribe has left, and what a sweep at the
    same instant would say. */
module Status {
  import opened Options
  import opened Time
  import opened Players
  import opened Sweep
  import opened Protection
  import opened Invariants
  import opened Plugin

  datatype Report = Report(days: int, hours: int, minutes: int, levels: int)

  /** Oldest start and highest level among the members, as the loop folds them. */
  predicate Extremes(all: seq<Player>, admins: set<Id>, tribe: Tribe, cap: int, oldest: int, highest: int) {
    && oldest <= cap && 0 <= highest
    && (forall i :: 0 <= i < |all| && Member(all[i], admins, tribe) ==> oldest <= all[i].start && all[i].level <= highest)
    && (oldest == cap || exists i :: 0 <= i < |all| && Member(all[i], admins, tribe) && all[i].start == oldest)
    && (highest == 0 || exists i :: 0 <= i < |all| && Member(all[i], admins, tribe) && all[i].level == highest)
  }

  method FoldTribe(p: NewPlayerProtection, tribe: Tribe, cap: int) returns (oldest: int, highest: int)
    ensures Extremes(p.all, AdminsOf(p.View()), tribe, cap, oldest, highest)
  {
    hide IsAdmin;
    ghost var admins := AdminsOf(p.View());
    oldest, highest := cap, 0;
    var i := 0;
    while i < |p.all|
      invariant i <= |p.all|
      invariant oldest <= cap && 0 <= highest
      invariant forall k :: 0 <= k < i && Member(p.all[k], admins, tribe) ==>
                  oldest <= p.all[k].start && p.all[k].level <= highest
      invariant oldest == cap || exists k :: 0 <= k < i && Member(p.all[k], admins, tribe) && p.all[k].start == oldest
      invariant highest == 0 || exists k :: 0 <= k < i && Member(p.all[k], admins, tribe) && p.all[k].level == highest
    {
      if !IsAdmin(p.cfg, p.groups, p.all[i].id) {
        if p.all[i].tribe == tribe {
          assert Member(p.all[i], admins, tribe);
          if p.all[i].start < oldest {
            oldest := p.all[i].start;
          }
          if p.all[i].level > highest {
            highest := p.all[i].level;
          }
        }
      }
      i := i + 1;
    }
  }

  /** Whole minutes from `now` to the end of a protection that began at `oldest`. */
  function MinutesLeft(oldest: int, hours: int, now: int): int {
    Truncate(oldest - (now - hours * TICKS_PER_HOUR), TICKS_PER_MINUTE)
  }

  function Breakdown(minutes: int, levels: int): Report {
    var days := Truncate(minutes, 1440);
    var hours := Truncate(minutes - 1440 * days, 60);
    Report(days, hours, minutes - (1440 * days + 60 * hours), levels)
  }

  function Total(r: Report): int {
    1440 * r.days + 60 * r.hours + r.minutes
  }

  /** The three figures recompose to the minutes left, with hours below 24 and minutes below
      60 in absolute value and all of one sign. */
  lemma BreakdownRecomposes(minutes: int, levels: int)
    ensures var r := Breakdown(minutes, levels);
            && Total(r) == minutes
            && (minutes >= 0 ==> 0 <= r.days && 0 <= r.hours < 24 && 0 <= r.minutes < 60)
            && (minutes <= 0 ==> r.days <= 0 && -24 < r.hours <= 0 && -60 < r.minutes <= 0)
  {
  }

  /** The figures are the whole minutes of `left` ticks, rounded toward zero, as days, hours below
      24 and minutes below 60, all of one sign. */
  predicate Shows(r: Report, left: int) {
    if left >= 0 then
      && 0 <= r.days && 0 <= r.hours < 24 && 0 <= r.minutes < 60
      && Total(r) * TICKS_PER_MINUTE <= left < (Total(r) + 1) * TICKS_PER_MINUTE
    else
      && r.days <= 0 && -24 < r.hours <= 0 && -60 < r.minutes <= 0
      && (Total(r) - 1) * TICKS_PER_MINUTE < left <= Total(r) * TICKS_PER_MINUTE
  }

  lemma {:induction false} BreakdownShows(oldest: int, hours: int, now: int, levels: int)
    ensures Shows(Breakdown(MinutesLeft(oldest, hours, now), levels), oldest + hours * TICKS_PER_HOUR - now)
  {
    BreakdownRecomposes(MinutesLeft(oldest, hours, now), levels);
  }

  /** The report shows the time that the oldest start of the tribe has left and the levels that
      the highest one has left. */
  predicate Reports(s: State, tribe: Tribe, cap: int, now: int, oldest: int, highest: int, r: Report) {
    && Extremes(s.all, AdminsOf(s), tribe, cap, oldest, highest)
    && Shows(r, oldest + s.cfg.hours * TICKS_PER_HOUR - now)
    && r.levels == s.cfg.maxLevel - highest
  }

  /** `now0` and `now` are the two readings of the clock; the fold of start times begins 999999
      hours ahead. */
  method Status(p: NewPlayerProtection, id: Id, team: Tribe, alive: bool, now0: int, now: int)
    returns (report: Option<Report>)
    requires Valid(p.View())
    ensures report.Some? <==>
            && alive && team !in p.listed
            && (id in AdminsOf(p.View())
                || (IsOnline(p.online, id) && exists i :: 0 <= i < |p.all| && p.all[i].id == id && p.all[i].flag == 1))
    ensures report.Some? ==>
              var cap := now0 + 999_999 * TICKS_PER_HOUR;
              exists oldest, highest :: Reports(p.View(), team, cap, now, oldest, highest, report.value)
  {
    hide IsAdmin, Valid, PlayerProtected;
    report := None;
    WhoIsProtected(p.View(), id);
    if !alive {
      return;
    }
    var pve := p.IsPveTribe(team);
    if !pve {
      var isProtected := p.IsPlayerProtected(id);
      if isProtected || IsAdmin(p.cfg, p.groups, id) {
        var oldest, highest := FoldTribe(p, team, now0 + 999_999 * TICKS_PER_HOUR);
        var minutes := MinutesLeft(oldest, p.cfg.hours, now);
        report := Some(Breakdown(minutes, p.cfg.maxLevel - highest));
        BreakdownShows(oldest, p.cfg.hours, now, p.cfg.maxLevel - highest);
        assert Reports(p.View(), team, now0 + 999_999 * TICKS_PER_HOUR, now, oldest, highest, report.value);
      }
    }
  }

  /** A report is determined: a tribe whose only non-admin record starts now has the configured
      hours left, as whole days and the rest of the hours. */
  lemma {:induction false} NewcomerReport(s: State, tribe: Tribe, now: int, i: nat, oldest: int, highest: int, r: Report)
    requires i < |s.all| && Member(s.all[i], AdminsOf(s), tribe) && s.all[i].start == now && s.all[i].level >= 1
    requires forall j :: 0 <= j < |s.all| && j != i ==> !Member(s.all[j], AdminsOf(s), tribe)
    requires s.cfg.hours >= 0 && Reports(s, tribe, now + 999_999 * TICKS_PER_HOUR, now, oldest, highest, r)
    ensures r == Report(s.cfg.hours / 24, s.cfg.hours % 24, 0, s.cfg.maxLevel - s.all[i].level)
  {
    hide IsAdmin;
    assert oldest == now && highest == s.all[i].level;
    assert Total(r) == 60 * s.cfg.hours;
  }

  /** The report agrees with the sweep. A minute left means that nobody of the tribe is expired,
      a negative figure that somebody is; zero or fewer levels left means exactly that somebody
      is at the limit. */
  lemma {:induction false} ReportAgreesWithSweep(s: State, tribe: Tribe, cap: int, now: int, oldest: int, highest: int, r: Report)
    requires Reports(s, tribe, cap, now, oldest, highest, r)
    requires s.cfg.maxLevel >= 1
    ensures var lim := LimitsOf(s, now);
            && (Total(r) >= 1 ==> forall i :: 0 <= i < |s.all| && Member(s.all[i], lim.admins, tribe) ==> !Expired(s.all[i], lim))
            && (Total(r) < 0 && oldest < cap ==>
                  exists i :: 0 <= i < |s.all| && Member(s.all[i], lim.admins, tribe) && Expired(s.all[i], lim))
            && (r.levels <= 0 <==>
                exists i :: 0 <= i < |s.all| && Member(s.all[i], lim.admins, tribe) && s.all[i].level >= s.cfg.maxLevel)
  {
  }

  /** With a minute and a level left, a sweep at the same instant takes protection from the
      tribe only if some member had lost it already. */
  lemma {:induction false} SafeReportSurvivesSweep(s: State, tribe: Tribe, cap: int, now: int, oldest: int, highest: int,
                                                   r: Report, i: nat)
    requires Reports(s, tribe, cap, now, oldest, highest, r) && s.cfg.maxLevel >= 1
    requires Total(r) >= 1 && r.levels >= 1
    requires forall j :: 0 <= j < |s.all| && Member(s.all[j], AdminsOf(s), tribe) ==> s.all[j].flag == 1
    requires i < |s.all| && s.all[i].tribe == tribe
    ensures Swept(s, now).all[i] == s.all[i]
  {
  }
}
