/** What the admin and player commands do, and when they do nothing, said over the records, the
    lists, the group cache and the configuration alone. */
module Commands {
  import opened Players
  import opened PveTribes
  import opened Protection
  import opened Invariants
  import opened Updates

  // ---------------------------------------------------------------- RemoveProtection, Disable

  /** After RemoveProtection nobody of the tribe is flagged in either list, admins included, and
      every other record is as it was; unless it is PVE the tribe is no longer protected. */
  lemma {:induction false} RemoveTakesAll(s: State, tribe: Tribe)
    requires Valid(s)
    ensures var t := RemoveProtection(s, tribe);
            && t == s.(all := t.all, online := t.online)
            && |t.all| == |s.all| && |t.online| == |s.online|
            && (forall i :: 0 <= i < |s.all| ==>
                  if s.all[i].tribe == tribe then t.all[i].flag == 0 && t.all[i] == s.all[i].(flag := 0)
                  else t.all[i] == s.all[i])
            && (forall k :: 0 <= k < |s.online| ==>
                  if s.online[k].data.tribe == tribe
                  then t.online[k] == OnlinePlayer(s.online[k].data.(flag := 0), s.online[k].nextMessage)
                  else t.online[k] == s.online[k])
            && (TribeProtected(t, tribe) <==> tribe > 100_000 && tribe in s.pve.listed)
  {
    hide IsAdmin;
    RemoveAlwaysClears(s, tribe);
  }

  /** Disable is RemoveProtection on the player's team when a living tribe leader who is online,
      no admin and flagged in the full list asks, the configuration allows it and the team is not
      PVE; in every other case it changes nothing. */
  lemma {:induction false} DisableDecides(s: State, id: Id, team: Tribe, alive: bool, leader: bool)
    requires Valid(s)
    ensures Disable(s, id, team, alive, leader) ==
            if && alive && leader && s.cfg.allowDisable && team !in s.pve.listed
               && id !in AdminsOf(s) && IsOnline(s.online, id)
               && exists i :: 0 <= i < |s.all| && s.all[i].id == id && s.all[i].flag == 1
            then RemoveProtection(s, team) else s
  {
    hide ClearTribe, RemoveProtection, IsAdmin, PlayerProtected, Valid;
    RemoveAlwaysClears(s, team);
    WhoIsProtected(s, id);
  }

  // ---------------------------------------------------------------- ResetProtection, AddProtection

  /** With no non-admin record of the tribe, or one at or above `MaxLevel`, both commands change
      nothing. */
  lemma {:induction false} GrantRefused(s: State, tribe: Tribe, hours: nat, now: int)
    requires || (forall i :: 0 <= i < |s.all| && s.all[i].tribe == tribe ==> s.all[i].id in AdminsOf(s))
             || (exists i :: 0 <= i < |s.all| && s.all[i].tribe == tribe && s.all[i].id !in AdminsOf(s)
                             && s.all[i].level >= s.cfg.maxLevel)
    ensures ResetProtection(s, tribe, now) == s && AddProtection(s, tribe, hours, now) == s
  {
    hide IsAdmin;
    if i :| 0 <= i < |s.all| && s.all[i].tribe == tribe && s.all[i].id !in AdminsOf(s)
            && s.all[i].level >= s.cfg.maxLevel {
      assert Member(s.all[i], AdminsOf(s), tribe);
    }
  }

  /** The tribe has a non-admin record and all of them are below `MaxLevel`. */
  predicate MayBeGranted(s: State, tribe: Tribe) {
    && (exists i :: 0 <= i < |s.all| && s.all[i].tribe == tribe && s.all[i].id !in AdminsOf(s))
    && (forall i :: 0 <= i < |s.all| && s.all[i].tribe == tribe && s.all[i].id !in AdminsOf(s) ==>
          s.all[i].level < s.cfg.maxLevel)
  }

  lemma {:induction false} MayBeGrantedIsEligible(s: State, tribe: Tribe)
    ensures Eligible(s, tribe) <==> MayBeGranted(s, tribe)
  {
    hide IsAdmin;
    assert forall i :: 0 <= i < |s.all| ==>
             (Member(s.all[i], AdminsOf(s), tribe) <==> s.all[i].tribe == tribe && s.all[i].id !in AdminsOf(s));
  }

  /** Same record but for the start time, and flagged. */
  predicate Given(before: Player, after: Player) {
    after == before.(start := after.start, flag := 1)
  }

  /** Otherwise both flag every non-admin of the tribe in both lists and touch no other record. */
  lemma {:induction false} GrantGiven(s: State, tribe: Tribe, hours: nat, now: int, add: bool)
    requires MayBeGranted(s, tribe)
    ensures var t := if add then AddProtection(s, tribe, hours, now) else ResetProtection(s, tribe, now);
            && t == s.(all := t.all, online := t.online)
            && |t.all| == |s.all| && |t.online| == |s.online|
            && (forall i :: 0 <= i < |s.all| ==>
                  if s.all[i].tribe == tribe && s.all[i].id !in AdminsOf(s)
                  then t.all[i].flag == 1 && Given(s.all[i], t.all[i]) && (!add ==> t.all[i].start == now)
                  else t.all[i] == s.all[i])
            && (forall k :: 0 <= k < |s.online| ==>
                  && t.online[k].nextMessage == s.online[k].nextMessage
                  && if s.online[k].data.tribe == tribe && s.online[k].data.id !in AdminsOf(s)
                     then && t.online[k].data.flag == 1 && Given(s.online[k].data, t.online[k].data)
                          && (!add ==> t.online[k].data.start == now)
                     else t.online[k] == s.online[k])
  {
    hide IsAdmin, Eligible, CountMembers, HoursDelta;
    MayBeGrantedIsEligible(s, tribe);
  }

  /** With an hour or more configured, a sweep at the instant of a reset takes no flag from the
      tribe, in either list. */
  lemma {:induction false} ResetSurvivesSweep(s: State, tribe: Tribe, now: int)
    requires Valid(s) && MayBeGranted(s, tribe) && s.cfg.hours >= 1
    ensures var t := ResetProtection(s, tribe, now);
            var u := Swept(t, now);
            && |u.all| == |s.all| && |u.online| == |s.online|
            && (forall i :: 0 <= i < |s.all| && s.all[i].tribe == tribe ==> u.all[i] == t.all[i])
            && (forall k :: 0 <= k < |s.online| && s.online[k].data.tribe == tribe ==> u.online[k] == t.online[k])
  {
    hide IsAdmin, Swept, ResetProtection, Valid, Admins;
    var t := ResetProtection(s, tribe, now);
    GrantGiven(s, tribe, 0, now, false);
    NextValid(s, ResetEvent(tribe, now));
    SweepFrame(t, now);
    SweptValid(t, now);
    assert AdminsOf(t) == AdminsOf(s);
    assert forall j :: 0 <= j < |s.all| ==>
             t.all[j].id == s.all[j].id && t.all[j].tribe == s.all[j].tribe && t.all[j].level == s.all[j].level;
    forall i | 0 <= i < |s.all| && s.all[i].tribe == tribe && s.all[i].id !in AdminsOf(s)
      ensures Swept(t, now).all[i] == t.all[i]
    {
      SweepDecides(t, now, i);
      FullBinary(Swept(t, now), i);
    }
    forall k | 0 <= k < |s.online| && s.online[k].data.tribe == tribe && s.online[k].data.id !in AdminsOf(s)
      ensures Swept(t, now).online[k] == t.online[k]
    {
      SweepDecidesOnline(t, now, k);
      OnlineBinary(Swept(t, now), k);
    }
  }

  lemma {:induction false} FullBinary(s: State, i: nat)
    requires Valid(s) && i < |s.all|
    ensures s.all[i].flag == 0 || s.all[i].flag == 1
  {
  }

  lemma {:induction false} OnlineBinary(s: State, k: nat)
    requires Valid(s) && k < |s.online|
    ensures s.online[k].data.flag == 0 || s.online[k].data.flag == 1
  {
    var i := FullRecord(s, k);
  }

  // ---------------------------------------------------------------- SetPVE

  /** SetPVE is refused unless a non-admin record has the tribe or, over RCON, one of the lists
      does; otherwise the PVE set gains or loses exactly the tribe, the set of removals the
      other way round, and nothing else changes. */
  lemma {:induction false} SetPveDecides(s: State, tribe: Tribe, on: bool, rcon: bool)
    requires Valid(s)
    ensures var t := Next(s, SetPveEvent(tribe, on, rcon));
            if (exists i :: 0 <= i < |s.all| && s.all[i].tribe == tribe && s.all[i].id !in AdminsOf(s))
               || (rcon && (tribe in s.pve.listed || tribe in s.pve.removed))
            then && t == s.(pve := t.pve) && t.pve.table == s.pve.table
                 && (forall x :: x in t.pve.listed <==> if x == tribe then on else x in s.pve.listed)
                 && (forall x :: x in t.pve.removed <==> if x == tribe then !on else x in s.pve.removed)
            else t == s
  {
    hide IsAdmin, Erased, Protected;
    var found := HasMember(s.all, AdminsOf(s), tribe);
    KnownTribe(s, tribe);
    SetRefines(s.pve, tribe, on, found, rcon);
    var q := SetPve(s.pve, tribe, on, found, rcon);
    forall x: Tribe
      ensures x in q.listed <==> x in Elements(q.listed)
      ensures x in q.removed <==> x in Elements(q.removed)
      ensures x in s.pve.listed <==> x in Elements(s.pve.listed)
      ensures x in s.pve.removed <==> x in Elements(s.pve.removed)
    {
    }
  }

  lemma {:induction false} KnownTribe(s: State, tribe: Tribe)
    ensures HasMember(s.all, AdminsOf(s), tribe) <==>
            exists i :: 0 <= i < |s.all| && s.all[i].tribe == tribe && s.all[i].id !in AdminsOf(s)
  {
    hide IsAdmin;
    if i :| 0 <= i < |s.all| && s.all[i].tribe == tribe && s.all[i].id !in AdminsOf(s) {
      assert Member(s.all[i], AdminsOf(s), tribe);
    }
  }

  /** What an event means for the PVE tribes: a SetPVE command, with whether a non-admin record of
      the tribe is there, a save or a restart. */
  ghost function PveMeaning(s: State, e: Event): seq<PveEvent> {
    match e
    case SetPveEvent(tribe, on, rcon) =>
      var found := exists i :: 0 <= i < |s.all| && s.all[i].tribe == tribe && s.all[i].id !in AdminsOf(s);
      [SetCommand(tribe, on, found, rcon)]
    case SaveEvent => [WorldSaved]
    case RestartEvent(_, _, _) => [ServerRestarted]
    case _ => []
  }

  ghost function PveHistory(s: State, es: seq<Event>): seq<PveEvent> {
    if es == [] then []
    else
      var n := |es| - 1;
      PveHistory(s, es[..n]) + PveMeaning(RunAll(s, es[..n]), es[n])
  }

  lemma {:induction false} OthersKeepPve(s: State, e: Event)
    requires !e.SetPveEvent? && !e.SaveEvent? && !e.RestartEvent?
    ensures Next(s, e).pve == s.pve
  {
  }

  lemma {:induction false} IdealConcat(m: Ideal, es: seq<PveEvent>, more: seq<PveEvent>)
    ensures IdealRun(m, es + more) == IdealRun(IdealRun(m, es), more)
    decreases |more|
  {
    if more == [] {
      assert es + more == es;
    } else {
      var n := |more| - 1;
      assert (es + more)[..|es + more| - 1] == es + more[..n];
      IdealConcat(m, es, more[..n]);
    }
  }

  lemma {:induction false} IdealOne(m: Ideal, e: PveEvent)
    ensures IdealRun(m, [e]) == IdealStep(m, e) && IdealRun(m, []) == m
  {
    assert [e][..0] == [];
  }

  lemma {:induction false} PveStep(m: State, e: Event)
    requires Valid(m)
    ensures Abstract(Next(m, e).pve) == IdealRun(Abstract(m.pve), PveMeaning(m, e))
  {
    hide IsAdmin, SetPve, Mirror, Login, Tick, Grant, ClearTribe, Reload, Notify, Abstract, IdealStep, IdealRun;
    var a := Abstract(m.pve);
    match e
    case SetPveEvent(tribe, on, rcon) =>
      var found := HasMember(m.all, AdminsOf(m), tribe);
      KnownTribe(m, tribe);
      SetRefines(m.pve, tribe, on, found, rcon);
      IdealOne(a, SetCommand(tribe, on, found, rcon));
    case SaveEvent =>
      SavedSets(m.pve);
      IdealOne(a, WorldSaved);
    case RestartEvent(_, _, _) =>
      RestartedSets(m.pve);
      IdealOne(a, ServerRestarted);
    case _ =>
      OthersKeepPve(m, e);
      IdealOne(a, WorldSaved);
  }

  lemma {:induction false} SavedSets(p: Pve)
    requires Consistent(p)
    ensures Abstract(Save(p)) == IdealStep(Abstract(p), WorldSaved)
  {
    SaveIsFaithful(p);
  }

  lemma {:induction false} RestartedSets(p: Pve)
    ensures Abstract(Restart(p)) == IdealStep(Abstract(p), ServerRestarted)
  {
  }

  /** The PVE lists and table of every run follow the machine of live, dropped and saved sets. */
  lemma {:induction false} RunFollowsIdeal(s: State, es: seq<Event>)
    requires Valid(s)
    ensures Abstract(RunAll(s, es).pve) == IdealRun(Abstract(s.pve), PveHistory(s, es))
  {
    hide Abstract, Valid, Next, PveMeaning, IdealRun;
    if es == [] {
      IdealOne(Abstract(s.pve), WorldSaved);
    } else {
      var n := |es| - 1;
      var m := RunAll(s, es[..n]);
      RunFollowsIdeal(s, es[..n]);
      StepsValid(s, es[..n]);
      PveStep(m, es[n]);
      IdealConcat(Abstract(s.pve), PveHistory(s, es[..n]), PveMeaning(m, es[n]));
    }
  }
}
