/** What the sweep, the timer update and ReloadConfig leave behind, said over the records, the
    group cache and the configuration alone. */
module Updates {
  import opened Options
  import opened Time
  import opened Players
  import Names
  import opened Sweep
  import opened Protection
  import opened Invariants

  /** Admins are the cached players with the configured group among theirs, without regard to
      case, and nobody when admins are not to be ignored. */
  lemma {:induction false} WhoIsAdmin(s: State, id: Id)
    ensures id in AdminsOf(s) <==>
            && s.cfg.ignoreAdmins && id in s.groups
            && exists i :: 0 <= i < |s.groups[id]| && Names.Fold(s.groups[id][i]) == Names.Fold(s.cfg.adminGroup)
  {
    assert id in s.groups ==>
             (Names.Lists(s.groups[id], s.cfg.adminGroup) <==>
              exists i :: 0 <= i < |s.groups[id]| && Names.Same(s.groups[id][i], s.cfg.adminGroup));
  }

  // ---------------------------------------------------------------- the sweep

  /** A record under the level limit and with a full second left. */
  predicate Fresh(p: Player, cfg: Config, now: int) {
    p.level < cfg.maxLevel && p.start + cfg.hours * TICKS_PER_HOUR - now >= TICKS_PER_SECOND
  }

  lemma {:induction false} FreshIsNotSpent(p: Player, cfg: Config, admins: set<Id>, now: int)
    ensures Spent(p, Limits(admins, cfg.maxLevel, cfg.hours, now)) <==> p.flag == 0 || !Fresh(p, cfg, now)
  {
    DueExactly(p.start, now - cfg.hours * TICKS_PER_HOUR);
  }

  /** A sweep changes nothing but flags of non-admins. */
  lemma {:induction false} SweepFrame(s: State, now: int)
    ensures var t := Swept(s, now);
            && t == s.(all := t.all, online := t.online)
            && |t.all| == |s.all| && |t.online| == |s.online|
            && (forall i :: 0 <= i < |s.all| ==>
                  && t.all[i] == s.all[i].(flag := t.all[i].flag)
                  && (s.all[i].id in AdminsOf(s) ==> t.all[i] == s.all[i]))
            && (forall k :: 0 <= k < |s.online| ==>
                  && t.online[k] == s.online[k].(data := s.online[k].data.(flag := t.online[k].data.flag))
                  && (s.online[k].data.id in AdminsOf(s) ==> t.online[k] == s.online[k]))
  {
    hide IsAdmin;
  }

  lemma {:induction false} SpentTribe(s: State, now: int, tribe: Tribe)
    ensures !TribeSpent(s.all, LimitsOf(s, now), tribe) <==>
            forall j :: 0 <= j < |s.all| && s.all[j].id !in AdminsOf(s) && s.all[j].tribe == tribe ==>
              s.all[j].flag != 0 && Fresh(s.all[j], s.cfg, now)
  {
    hide IsAdmin, Spent, Fresh;
    forall p: Player {
      FreshIsNotSpent(p, s.cfg, AdminsOf(s), now);
    }
    if j :| 0 <= j < |s.all| && s.all[j].id !in AdminsOf(s) && s.all[j].tribe == tribe
            && !(s.all[j].flag != 0 && Fresh(s.all[j], s.cfg, now)) {
      assert Member(s.all[j], AdminsOf(s), tribe) && Spent(s.all[j], LimitsOf(s, now));
    }
  }

  /** A non-admin is flagged after a sweep exactly when every non-admin record of the tribe was
      flagged, under `MaxLevel` and a full second short of `HoursOfProtection`. */
  lemma {:induction false} SweepDecides(s: State, now: int, i: nat)
    requires Valid(s) && i < |s.all| && s.all[i].id !in AdminsOf(s)
    ensures Swept(s, now).all[i].flag != 0 <==>
            forall j :: 0 <= j < |s.all| && s.all[j].id !in AdminsOf(s) && s.all[j].tribe == s.all[i].tribe ==>
              && s.all[j].flag == 1
              && s.all[j].level < s.cfg.maxLevel
              && s.all[j].start + s.cfg.hours * TICKS_PER_HOUR - now >= TICKS_PER_SECOND
  {
    hide IsAdmin, Mirror;
    SpentTribe(s, now, s.all[i].tribe);
  }

  lemma {:induction false} FullRecord(s: State, k: nat) returns (i: nat)
    requires Valid(s) && k < |s.online|
    ensures i < |s.all| && Twin(s.all[i], s.online[k].data)
    ensures forall j :: 0 <= j < |s.all| && s.all[j].id == s.online[k].data.id ==> j == i
  {
    assert HasTwin(s.all, s.online[k].data);
    i :| 0 <= i < |s.all| && Twin(s.all[i], s.online[k].data);
  }

  /** The same decision reaches the online record of the player. */
  lemma {:induction false} SweepDecidesOnline(s: State, now: int, k: nat)
    requires Valid(s) && k < |s.online| && s.online[k].data.id !in AdminsOf(s)
    ensures Swept(s, now).online[k].data.flag != 0 <==>
            forall j :: 0 <= j < |s.all| && s.all[j].id !in AdminsOf(s) && s.all[j].tribe == s.online[k].data.tribe ==>
              && s.all[j].flag == 1
              && s.all[j].level < s.cfg.maxLevel
              && s.all[j].start + s.cfg.hours * TICKS_PER_HOUR - now >= TICKS_PER_SECOND
  {
    hide IsAdmin;
    SpentTribe(s, now, s.online[k].data.tribe);
    var i := FullRecord(s, k);
  }

  // ---------------------------------------------------------------- the timer update

  /** Less than a second before the deadline an update runs, earlier nothing happens. */
  lemma {:induction false} EarlyTick(s: State, now: int, sights: map<Id, Sight>, current: Groups)
    requires s.nextUpdate - now >= TICKS_PER_SECOND
    ensures Tick(s, now, sights, current) == s
  {
    DueExactly(s.nextUpdate, now);
  }

  lemma {:induction false} TickIsSweep(s: State, now: int, sights: map<Id, Sight>, current: Groups)
    requires Valid(s) && s.nextUpdate - now < TICKS_PER_SECOND
    ensures var r := Refresh(s, sights, current).(nextUpdate := now + s.interval * TICKS_PER_MINUTE);
            Valid(r) && Tick(s, now, sights, current) == Swept(r, now)
  {
    hide Swept, Valid;
    DueExactly(s.nextUpdate, now);
    var u := s.(nextUpdate := now + s.interval * TICKS_PER_MINUTE);
    SameLists(s, u);
    RefreshValid(u, sights, current);
  }

  lemma {:induction false} SameLists(s: State, u: State)
    requires Valid(s) && u == s.(nextUpdate := u.nextUpdate)
    ensures Valid(u)
  {
  }

  /** An update changes the two lists, the cache, which then holds the current groups of the
      players in it, and the time of the next update. */
  lemma {:induction false} UpdateFrame(s: State, now: int, sights: map<Id, Sight>, current: Groups)
    requires Valid(s) && s.nextUpdate - now < TICKS_PER_SECOND
    ensures var t := Tick(s, now, sights, current);
            && Valid(t)
            && t == s.(all := t.all, online := t.online, groups := t.groups, nextUpdate := t.nextUpdate)
            && t.nextUpdate == now + 60 * s.interval * TICKS_PER_SECOND
            && t.groups.Keys == s.groups.Keys
            && (forall id :: id in t.groups ==> t.groups[id] == if id in current then current[id] else [])
            && |t.all| == |s.all| && |t.online| == |s.online|
  {
    hide Swept, IsAdmin, RefreshAll, RefreshOnline, Mirror;
    TickIsSweep(s, now, sights, current);
    SweepFrame(Refresh(s, sights, current).(nextUpdate := now + s.interval * TICKS_PER_MINUTE), now);
    TickValid(s, now, sights, current);
  }

  /** After it both records of every online player whom the game reports carry the reported tribe
      and level, all other records keep theirs, and nothing else in a record changes but the flag. */
  lemma {:induction false} UpdateTakesOver(s: State, now: int, sights: map<Id, Sight>, current: Groups, i: nat)
    requires Valid(s) && s.nextUpdate - now < TICKS_PER_SECOND && i < |s.all|
    ensures var t := Tick(s, now, sights, current);
            var p := s.all[i];
            && |t.all| == |s.all|
            && t.all[i] == p.(tribe := t.all[i].tribe, level := t.all[i].level, flag := t.all[i].flag)
            && if IsOnline(s.online, p.id) && p.id in sights
               then t.all[i].tribe == sights[p.id].tribe && t.all[i].level == sights[p.id].level
               else t.all[i].tribe == p.tribe && t.all[i].level == p.level
  {
    hide Swept, IsAdmin, RefreshOnline, Mirror;
    TickIsSweep(s, now, sights, current);
    SweepFrame(Refresh(s, sights, current).(nextUpdate := now + s.interval * TICKS_PER_MINUTE), now);
  }

  lemma {:induction false} UpdateTakesOverOnline(s: State, now: int, sights: map<Id, Sight>, current: Groups, k: nat)
    requires Valid(s) && s.nextUpdate - now < TICKS_PER_SECOND && k < |s.online|
    ensures var t := Tick(s, now, sights, current);
            var p := s.online[k].data;
            && |t.online| == |s.online|
            && t.online[k].nextMessage == s.online[k].nextMessage
            && var q := t.online[k].data;
               && q == p.(tribe := q.tribe, level := q.level, flag := q.flag)
               && if p.id in sights
                  then q.tribe == sights[p.id].tribe && q.level == sights[p.id].level
                  else q.tribe == p.tribe && q.level == p.level
  {
    hide Swept, IsAdmin, RefreshAll, Mirror;
    TickIsSweep(s, now, sights, current);
    SweepFrame(Refresh(s, sights, current).(nextUpdate := now + s.interval * TICKS_PER_MINUTE), now);
    assert IsOnline(s.online, s.online[k].data.id);
  }

  /** And a non-admin by the current groups is flagged after it exactly when every non-admin record
      of the tribe as it is now was flagged and is under the limits. */
  lemma {:induction false} UpdateDecides(s: State, now: int, sights: map<Id, Sight>, current: Groups, i: nat)
    requires Valid(s) && s.nextUpdate - now < TICKS_PER_SECOND && i < |s.all|
    ensures var t := Tick(s, now, sights, current);
            && |t.all| == |s.all|
            && if s.all[i].id in AdminsOf(t) then t.all[i].flag == s.all[i].flag
               else t.all[i].flag != 0 <==>
                    forall j :: 0 <= j < |s.all| && t.all[j].id !in AdminsOf(t) && t.all[j].tribe == t.all[i].tribe ==>
                      && s.all[j].flag == 1
                      && t.all[j].level < s.cfg.maxLevel
                      && s.all[j].start + s.cfg.hours * TICKS_PER_HOUR - now >= TICKS_PER_SECOND
  {
    hide Swept, IsAdmin, Valid, Mirror;
    TickIsSweep(s, now, sights, current);
    var r := Refresh(s, sights, current).(nextUpdate := now + s.interval * TICKS_PER_MINUTE);
    SweepFrame(r, now);
    if s.all[i].id !in AdminsOf(r) {
      SweepDecides(r, now, i);
    }
  }

  /** The online record of the player follows the full record. */
  lemma {:induction false} UpdateDecidesOnline(s: State, now: int, sights: map<Id, Sight>, current: Groups, k: nat)
    requires Valid(s) && s.nextUpdate - now < TICKS_PER_SECOND && k < |s.online|
    ensures var t := Tick(s, now, sights, current);
            && |t.all| == |s.all| && |t.online| == |s.online|
            && forall i :: 0 <= i < |t.all| && t.all[i].id == t.online[k].data.id ==> t.online[k].data.flag == t.all[i].flag
  {
    hide Tick, Valid;
    UpdateFrame(s, now, sights, current);
    var m := FullRecord(Tick(s, now, sights, current), k);
  }

  /** One non-admin reported at or above `MaxLevel` costs every non-admin of the reported tribe
      the flag, in both lists, in the same update. */
  lemma {:induction false} SightedAtLimit(s: State, now: int, sights: map<Id, Sight>, current: Groups, id: Id)
    requires Valid(s) && s.nextUpdate - now < TICKS_PER_SECOND
    requires IsOnline(s.online, id) && id in sights && sights[id].level >= s.cfg.maxLevel
    requires id !in AdminsOf(Tick(s, now, sights, current))
    ensures var t := Tick(s, now, sights, current);
            && (forall i :: 0 <= i < |t.all| && t.all[i].tribe == sights[id].tribe && t.all[i].id !in AdminsOf(t) ==>
                  t.all[i].flag == 0)
            && (forall k :: 0 <= k < |t.online| && t.online[k].data.tribe == sights[id].tribe
                            && t.online[k].data.id !in AdminsOf(t) ==>
                  t.online[k].data.flag == 0)
  {
    hide Tick, Valid, Admins;
    var t := Tick(s, now, sights, current);
    UpdateFrame(s, now, sights, current);
    var o :| 0 <= o < |s.online| && s.online[o].data.id == id;
    var m := FullRecord(s, o);
    UpdateTakesOver(s, now, sights, current, m);
    forall i | 0 <= i < |t.all| && t.all[i].tribe == sights[id].tribe && t.all[i].id !in AdminsOf(t)
      ensures t.all[i].flag == 0
    {
      UpdateTakesOver(s, now, sights, current, i);
      UpdateDecides(s, now, sights, current, i);
    }
    forall k | 0 <= k < |t.online| && t.online[k].data.tribe == sights[id].tribe && t.online[k].data.id !in AdminsOf(t)
      ensures t.online[k].data.flag == 0
    {
      var i := FullRecord(t, k);
    }
  }

  // ---------------------------------------------------------------- reload

  /** ReloadConfig gives every admin the flag, and every non-admin exactly when all non-admin
      records of the tribe are under the limits of the configuration then in force. A file that
      cannot be opened leaves the configuration and the next update as they were. */
  lemma {:induction false} ReloadDecides(s: State, cfg: Option<Config>, now: int, i: nat)
    requires i < |s.all|
    ensures var t := Reload(s, cfg, now);
            && t == s.(cfg := t.cfg, nextUpdate := t.nextUpdate, all := t.all, online := t.online)
            && t.cfg == (if cfg.Some? then cfg.value else s.cfg)
            && t.nextUpdate == (if cfg.Some? then now else s.nextUpdate)
            && |t.all| == |s.all| && t.all[i] == s.all[i].(flag := t.all[i].flag)
            && t.all[i].flag ==
               if s.all[i].id in AdminsOf(t)
                  || forall j :: 0 <= j < |s.all| && s.all[j].id !in AdminsOf(t) && s.all[j].tribe == s.all[i].tribe ==>
                       && s.all[j].level < t.cfg.maxLevel
                       && s.all[j].start + t.cfg.hours * TICKS_PER_HOUR - now >= TICKS_PER_SECOND
               then 1 else 0
  {
    hide IsAdmin, Fresh, TribeSpent;
    var loaded := if cfg.Some? then s.(cfg := cfg.value, nextUpdate := now) else s;
    var up := loaded.(all := RaiseAll(s.all), online := RaiseOnline(s.online));
    SweepFrame(up, now);
    SpentTribe(up, now, s.all[i].tribe);
    assert forall j :: 0 <= j < |s.all| ==> up.all[j] == s.all[j].(flag := 1);
    FreshRaised(s, up, now);
  }

  lemma {:induction false} FreshRaised(s: State, up: State, now: int)
    requires |up.all| == |s.all| && forall j :: 0 <= j < |s.all| ==> up.all[j] == s.all[j].(flag := 1)
    ensures forall j :: 0 <= j < |s.all| ==>
              (Fresh(up.all[j], up.cfg, now) <==>
               && s.all[j].level < up.cfg.maxLevel
               && s.all[j].start + up.cfg.hours * TICKS_PER_HOUR - now >= TICKS_PER_SECOND)
  {
  }

  /** The online records follow the full ones; only their flags change. */
  lemma {:induction false} ReloadDecidesOnline(s: State, cfg: Option<Config>, now: int, k: nat, i: nat)
    requires Valid(s) && k < |s.online| && i < |s.all| && s.all[i].id == s.online[k].data.id
    ensures var t := Reload(s, cfg, now);
            && |t.online| == |s.online| && |t.all| == |s.all|
            && t.online[k] == s.online[k].(data := s.online[k].data.(flag := t.all[i].flag))
  {
    hide IsAdmin, TribeSpent;
    var m := FullRecord(s, k);
    assert m == i;
  }
}
