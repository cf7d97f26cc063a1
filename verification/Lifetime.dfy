/** How long a protection lasts while the process runs; Restarts.dfy goes on from there. */
module Lifetime {
  import opened Time
  import opened Players
  import opened Protection

  /** Events that neither grant protection nor rebuild the list. */
  predicate Ordinary(e: Event) {
    !e.ResetEvent? && !e.AddEvent? && !e.ReloadEvent? && !e.RestartEvent?
  }

  predicate Ages(before: seq<Player>, after: seq<Player>) {
    && |before| <= |after|
    && (forall i :: 0 <= i < |before| ==>
          && after[i].id == before[i].id
          && after[i].start == before[i].start
          && (before[i].flag == 0 ==> after[i].flag == 0))
    && forall i :: |before| <= i < |after| ==> !Known(before, after[i].id)
  }

  lemma {:induction false} NextAges(s: State, e: Event)
    requires Ordinary(e)
    ensures Ages(s.all, Next(s, e).all) && Next(s, e).cfg == s.cfg
  {
    hide Login, Tick;
    match e
    case LoginEvent(id, team, now, memberOf) => LoginAges(s, id, team, now, memberOf);
    case TickEvent(now, sights, current) => TickAges(s, now, sights, current);
    case _ =>
  }

  lemma {:induction false} LoginAges(s: State, id: Id, team: Tribe, now: int, groups: seq<string>)
    ensures Ages(s.all, Login(s, id, team, now, groups).all) && Login(s, id, team, now, groups).cfg == s.cfg
  {
  }

  lemma {:induction false} TickAges(s: State, now: int, sights: map<Id, Sight>, current: Groups)
    ensures Ages(s.all, Tick(s, now, sights, current).all) && Tick(s, now, sights, current).cfg == s.cfg
  {
  }

  /** No flag comes back, no start time moves and no player gets a second record. */
  lemma {:induction false} RunAges(s: State, es: seq<Event>)
    requires forall k :: 0 <= k < |es| ==> Ordinary(es[k])
    ensures Ages(s.all, RunAll(s, es).all) && RunAll(s, es).cfg == s.cfg
  {
    if es != [] {
      RunAges(s, es[..|es| - 1]);
      NextAges(RunAll(s, es[..|es| - 1]), es[|es| - 1]);
    }
  }

  lemma {:induction false} RunAppend(s: State, es: seq<Event>, more: seq<Event>)
    ensures RunAll(s, es + more) == RunAll(RunAll(s, es), more)
    decreases |more|
  {
    if more == [] {
      assert es + more == es;
    } else {
      var k := |more| - 1;
      assert (es + more)[..|es + more| - 1] == es + more[..k];
      assert (es + more)[|es + more| - 1] == more[k];
      RunAppend(s, es, more[..k]);
    }
  }

  lemma {:induction false} RunOne(s: State, e: Event)
    ensures RunAll(s, [e]) == Next(s, e)
  {
    assert [e][..0] == [];
  }

  lemma {:induction false} TickExpires(s: State, i: nat, now: int, sights: map<Id, Sight>, current: Groups)
    requires i < |s.all| && Due(s.nextUpdate, now)
    requires s.all[i].id !in Admins(s.cfg, RefreshGroups(s.groups, OnlineIds(s.online), current))
    requires s.all[i].start + s.cfg.hours * TICKS_PER_HOUR - now < TICKS_PER_SECOND
    ensures Tick(s, now, sights, current).all[i].flag == 0
  {
  }

  /** A record that is not an admin's at an update less than a second before the end of its
      hours, or later, is unflagged there and stays so, however the run of the process goes on. */
  lemma {:induction false} ExpiredForGood(s: State, i: nat, before: seq<Event>, now: int,
                                          sights: map<Id, Sight>, current: Groups, after: seq<Event>)
    requires i < |s.all|
    requires forall k :: 0 <= k < |before| ==> Ordinary(before[k])
    requires forall k :: 0 <= k < |after| ==> Ordinary(after[k])
    requires var m := RunAll(s, before);
             && Due(m.nextUpdate, now)
             && s.all[i].id !in Admins(m.cfg, RefreshGroups(m.groups, OnlineIds(m.online), current))
    requires s.all[i].start + s.cfg.hours * TICKS_PER_HOUR - now < TICKS_PER_SECOND
    ensures var end := RunAll(s, before + [TickEvent(now, sights, current)] + after);
            i < |end.all| && end.all[i].id == s.all[i].id && end.all[i].flag == 0
  {
    var m := RunAll(s, before);
    var tick := TickEvent(now, sights, current);
    RunAges(s, before);
    TickExpires(m, i, now, sights, current);
    NextAges(m, tick);
    RunAppend(s, before, [tick]);
    assert [tick][..0] == [];
    assert RunAll(m, [tick]) == Next(m, tick);
    RunAppend(s, before + [tick], after);
    RunAges(Next(m, tick), after);
  }

  /** Conversely an update takes a flag away only for cause: some non-admin of the tribe had no
      flag, was at the level limit, or had less than a second left. */
  lemma {:induction false} LostForCause(s: State, i: nat, now: int)
    requires i < |s.all| && s.all[i].flag != 0 && Swept(s, now).all[i].flag == 0
    ensures exists j :: 0 <= j < |s.all| && Member(s.all[j], AdminsOf(s), s.all[i].tribe)
                        && (s.all[j].flag == 0 || s.all[j].level >= s.cfg.maxLevel
                            || s.all[j].start + s.cfg.hours * TICKS_PER_HOUR - now < TICKS_PER_SECOND)
  {
  }
}
