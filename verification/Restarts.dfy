/** How long a lost protection stays lost when the server restarts. A restart reads the table,
    and the table knows only the flags of the last save. */
module Restarts {
  import opened Options
  import opened Time
  import opened Players
  import opened Protection
  import opened Invariants
  import opened Durability
  import opened Updates
  import opened Lifetime

  /** The player is known and unprotected. */
  predicate Unflagged(s: State, id: Id) {
    && Known(s.all, id)
    && forall i :: 0 <= i < |s.all| && s.all[i].id == id ==> s.all[i].flag == 0
  }

  /** The last save has stored the player as unprotected. */
  predicate StoredUnflagged(s: State, id: Id) {
    id in s.rows && s.rows[id].flag == 0
  }

  // ---------------------------------------------------------------- what a restart gives back

  lemma {:induction false} RestartedRecord(s: State, id: Id, cfg: Config, kept: set<Id>, now: int)
    requires Valid(s)
    ensures var t := Reboot(s, cfg, kept, now);
            && (Known(t.all, id) <==> id in s.rows && id in kept)
            && forall i :: 0 <= i < |t.all| && t.all[i].id == id ==> id in s.rows && t.all[i] == s.rows[id]
  {
    hide Load;
    var t := Reboot(s, cfg, kept, now);
    forall p: Player {
      Loaded(s.rows, kept, p);
    }
    assert forall i :: 0 <= i < |t.all| ==> t.all[i] in t.all;
  }

  /** A restart keeps a player unprotected exactly when the age filter lets the row through and
      the row says so. */
  lemma {:induction false} RestartUnflaggedIff(s: State, id: Id, cfg: Config, kept: set<Id>, now: int)
    requires Valid(s)
    ensures Unflagged(Reboot(s, cfg, kept, now), id) <==> id in kept && StoredUnflagged(s, id)
  {
    hide Reboot, Valid;
    RestartedRecord(s, id, cfg, kept, now);
  }

  /** The same holds for a player who only returns after the restart: a row that was dropped or
      never written means a new player, with a new protection. */
  lemma {:induction false} ReturnUnflaggedIff(s: State, id: Id, cfg: Config, kept: set<Id>, now: int,
                                              team: Tribe, later: int, groups: seq<string>)
    requires Valid(s)
    ensures Unflagged(Login(Reboot(s, cfg, kept, now), id, team, later, groups), id)
            <==> id in kept && StoredUnflagged(s, id)
  {
    hide Reboot, Valid;
    var t := Reboot(s, cfg, kept, now);
    RestartUnflaggedIff(s, id, cfg, kept, now);
    LoginUnflagged(t, id, team, later, groups);
  }

  lemma {:induction false} LoginUnflagged(s: State, id: Id, team: Tribe, now: int, groups: seq<string>)
    ensures Unflagged(Login(s, id, team, now, groups), id) <==> Unflagged(s, id)
  {
    var t := Login(s, id, team, now, groups);
    assert forall i :: 0 <= i < |s.all| ==> t.all[i].id == s.all[i].id && t.all[i].flag == s.all[i].flag;
    if !Known(s.all, id) {
      assert t.all[|s.all|].id == id && t.all[|s.all|].flag == 1;
    } else {
      assert |t.all| == |s.all|;
    }
  }

  /** After an update has taken an expired protection away, a restart that keeps the player
      brings it back if and only if the table still has the flag. */
  lemma {:induction false} RestartBringsBackIff(s: State, i: nat, now: int, sights: map<Id, Sight>, current: Groups,
                                                cfg: Config, kept: set<Id>, later: int)
    requires Valid(s) && i < |s.all| && Due(s.nextUpdate, now)
    requires s.all[i].id !in Admins(s.cfg, RefreshGroups(s.groups, OnlineIds(s.online), current))
    requires s.all[i].start + s.cfg.hours * TICKS_PER_HOUR - now < TICKS_PER_SECOND
    requires s.all[i].id in s.rows && s.all[i].id in kept
    ensures var id := s.all[i].id;
            var t := Tick(s, now, sights, current);
            && t.all[i].id == id && t.all[i].flag == 0
            && ((exists k :: 0 <= k < |Reboot(t, cfg, kept, later).all|
                             && Reboot(t, cfg, kept, later).all[k].id == id
                             && Reboot(t, cfg, kept, later).all[k].flag == 1) <==> s.rows[id].flag == 1)
  {
    hide Reboot, Valid, Tick;
    var t := Tick(s, now, sights, current);
    var e := TickEvent(now, sights, current);
    assert t == Next(s, e);
    TickExpires(s, i, now, sights, current);
    NextAges(s, e);
    NextValid(s, e);
    OnlySavesWrite(s, e);
    RestartedRecord(t, s.all[i].id, cfg, kept, later);
  }

  const NEWCOMER: Player := Player(1, 200_000, 0, 0, 1, 1)

  /** The server after a first login at time 0, the logout and a save. */
  function Newcomer(cfg: Config): State {
    Initial(cfg, 0).(all := [NEWCOMER], rows := map[1 := NEWCOMER])
  }

  lemma {:induction false} NewcomerLogin(cfg: Config)
    ensures Login(Initial(cfg, 0), 1, 200_000, 0, []) ==
            Initial(cfg, 0).(all := [NEWCOMER], online := [OnlinePlayer(NEWCOMER, 0)], groups := map[1 := []])
  {
    assert [NEWCOMER][0].id == 1;
    assert Find([NEWCOMER], 1) == 0;
  }

  lemma {:induction false} NewcomerLogout(s: State)
    requires s.online == [OnlinePlayer(NEWCOMER, 0)] && s.groups == map[1 := []]
    ensures Logout(s, 1) == s.(online := [], groups := map[])
  {
    assert s.online[0].data.id == 1;
    assert FindOnline(s.online, 1) == 0;
  }

  lemma {:induction false} NewcomerSave(cfg: Config)
    ensures SaveWorld(Initial(cfg, 0).(all := [NEWCOMER])) == Newcomer(cfg)
  {
    assert [NEWCOMER][0].id == 1;
    assert Find([NEWCOMER], 1) == 0;
    assert Stored([NEWCOMER]) == map[1 := NEWCOMER];
  }

  lemma {:induction false} NewcomerIsReachable(cfg: Config)
    ensures RunAll(Initial(cfg, 0), [LoginEvent(1, 200_000, 0, []), LogoutEvent(1), SaveEvent]) == Newcomer(cfg)
    ensures Valid(Newcomer(cfg))
  {
    hide RunAll, Valid, Login, Logout, SaveWorld;
    var login, logout := LoginEvent(1, 200_000, 0, []), LogoutEvent(1);
    var s := Initial(cfg, 0);
    NewcomerLogin(cfg);
    NewcomerLogout(Next(s, login));
    NewcomerSave(cfg);
    RunOne(s, login);
    RunAppend(s, [login], [logout]);
    RunOne(Next(s, login), logout);
    RunAppend(s, [login] + [logout], [SaveEvent]);
    RunOne(s.(all := [NEWCOMER]), SaveEvent);
    assert [login, logout, SaveEvent] == [login] + [logout] + [SaveEvent];
    RunValid(cfg, 0, [login, logout, SaveEvent]);
  }

  /** So protection does not end for good at the update that ends it: after a save, an update
      at the hundredth hour takes a protection of 72 hours away, and a restart brings it back. */
  lemma {:induction false} RestartCounterexample(cfg: Config, sights: map<Id, Sight>)
    requires cfg.hours == 72 && !cfg.ignoreAdmins
    ensures var s := RunAll(Initial(cfg, 0), [LoginEvent(1, 200_000, 0, []), LogoutEvent(1), SaveEvent]);
            var t := Tick(s, 100 * TICKS_PER_HOUR, sights, map[]);
            var u := Reboot(t, cfg, {1}, 100 * TICKS_PER_HOUR);
            Unflagged(t, 1) && exists k :: 0 <= k < |u.all| && u.all[k].id == 1 && u.all[k].flag == 1
  {
    hide RunAll, Tick, Reboot, Valid;
    NewcomerIsReachable(cfg);
    var s, now := Newcomer(cfg), 100 * TICKS_PER_HOUR;
    var tick := TickEvent(now, sights, map[]);
    RestartBringsBackIff(s, 0, now, sights, map[], cfg, {1}, now);
    NextValid(s, tick);
    NextAges(s, tick);
    UniqueRecord(Next(s, tick), 0);
  }

  // ---------------------------------------------------------------- one step, exactly

  /** The events that leave an unprotected player unprotected, read off the state before. */
  predicate StaysOff(s: State, e: Event, id: Id) {
    Known(s.all, id) &&
    var p := s.all[Find(s.all, id)];
    match e
    case ResetEvent(tribe, _) => !(Eligible(s, tribe) && Member(p, AdminsOf(s), tribe))
    case AddEvent(tribe, _, _) => !(Eligible(s, tribe) && Member(p, AdminsOf(s), tribe))
    case ReloadEvent(cfg, now) =>
      var c := if cfg.Some? then cfg.value else s.cfg;
      var admins := Admins(c, s.groups);
      && id !in admins
      && exists j :: 0 <= j < |s.all| && s.all[j].id !in admins && s.all[j].tribe == p.tribe
                     && (s.all[j].start + c.hours * TICKS_PER_HOUR - now < TICKS_PER_SECOND
                         || s.all[j].level >= c.maxLevel)
    case RestartEvent(_, kept, _) => id in kept && StoredUnflagged(s, id)
    case _ => true
  }

  lemma {:induction false} GrantUnflagged(s: State, tribe: Tribe, now: int, delta: int, id: Id)
    requires Valid(s) && Unflagged(s, id)
    ensures Unflagged(Grant(s, tribe, now, delta), id) <==>
            !(Eligible(s, tribe) && Member(s.all[Find(s.all, id)], AdminsOf(s), tribe))
  {
    hide Eligible, GrantOnline;
    var k := Find(s.all, id);
    var t := Grant(s, tribe, now, delta);
    assert |t.all| == |s.all| && t.all[k].id == id;
    assert forall i :: 0 <= i < |t.all| && t.all[i].id == id ==> i == k;
  }

  lemma {:induction false} ReloadUnflagged(s: State, cfg: Option<Config>, now: int, id: Id)
    requires Valid(s) && Unflagged(s, id)
    ensures Unflagged(Reload(s, cfg, now), id) <==> StaysOff(s, ReloadEvent(cfg, now), id)
  {
    hide Reload, Admins, Valid;
    UniqueWhenValid(s);
    var k := Find(s.all, id);
    var t := Reload(s, cfg, now);
    ReloadDecides(s, cfg, now, k);
    forall i | 0 <= i < |s.all|
      ensures t.all[i].id == s.all[i].id
    {
      ReloadDecides(s, cfg, now, i);
    }
    assert Known(t.all, id) by { assert t.all[k].id == id; }
    assert forall i :: 0 <= i < |t.all| && t.all[i].id == id ==> i == k;
  }

  lemma {:induction false} OrdinaryUnflagged(s: State, e: Event, id: Id)
    requires Ordinary(e) && Unflagged(s, id)
    ensures Unflagged(Next(s, e), id)
  {
    hide Next;
    NextAges(s, e);
    var k := Find(s.all, id);
    assert Next(s, e).all[k].id == id;
  }

  /** An unprotected player of a reachable state is unprotected after an event exactly when the
      event is none of those that give protection back. */
  lemma {:induction false} NextUnflaggedIff(s: State, e: Event, id: Id)
    requires Valid(s) && Unflagged(s, id)
    ensures Unflagged(Next(s, e), id) <==> StaysOff(s, e, id)
  {
    hide Valid, Unflagged, Grant, Reload, Reboot, Eligible, StoredUnflagged;
    UnflaggedIsKnown(s, id);
    match e
    case ResetEvent(tribe, now) => GrantUnflagged(s, tribe, now, 0, id);
    case AddEvent(tribe, hours, now) =>
      GrantUnflagged(s, tribe, now, HoursDelta(hours, s.cfg.hours) * TICKS_PER_HOUR, id);
    case ReloadEvent(cfg, now) => ReloadUnflagged(s, cfg, now, id);
    case RestartEvent(cfg, kept, now) => RestartUnflaggedIff(s, id, cfg, kept, now);
    case _ => OrdinaryUnflagged(s, e, id);
  }

  lemma {:induction false} UnflaggedIsKnown(s: State, id: Id)
    requires Unflagged(s, id)
    ensures Known(s.all, id)
  {
  }

  // ---------------------------------------------------------------- whole runs

  /** No event of the run gives protection back in the state in which it happens. */
  predicate AllStayOff(s: State, es: seq<Event>, id: Id) {
    forall k :: 0 <= k < |es| ==> StaysOff(RunAll(s, es[..k]), es[k], id)
  }

  predicate AlwaysUnflagged(s: State, es: seq<Event>, id: Id) {
    forall k :: 0 <= k <= |es| ==> Unflagged(RunAll(s, es[..k]), id)
  }

  lemma {:induction false} LongerRun(s: State, es: seq<Event>, id: Id)
    requires es != []
    ensures AllStayOff(s, es, id) <==>
            AllStayOff(s, es[..|es| - 1], id) && StaysOff(RunAll(s, es[..|es| - 1]), es[|es| - 1], id)
    ensures AlwaysUnflagged(s, es, id) <==> AlwaysUnflagged(s, es[..|es| - 1], id) && Unflagged(RunAll(s, es), id)
  {
    hide Unflagged, StaysOff, RunAll;
    var n := |es| - 1;
    assert es[..|es|] == es;
    assert forall k :: 0 <= k <= n ==> es[..n][..k] == es[..k];
    assert AllStayOff(s, es[..n], id) <==> forall k :: 0 <= k < n ==> StaysOff(RunAll(s, es[..k]), es[k], id);
    assert AlwaysUnflagged(s, es[..n], id) <==> forall k :: 0 <= k <= n ==> Unflagged(RunAll(s, es[..k]), id);
  }

  /** A player is unprotected throughout a run of any events exactly when none of them meets the
      condition under which it gives protection back. */
  lemma {:induction false} RunUnflaggedIff(s: State, es: seq<Event>, id: Id)
    requires Valid(s) && Unflagged(s, id)
    ensures AlwaysUnflagged(s, es, id) <==> AllStayOff(s, es, id)
  {
    hide Valid, Unflagged, StaysOff, Next;
    if es == [] {
      assert es[..0] == [];
    } else {
      var before := es[..|es| - 1];
      RunUnflaggedIff(s, before, id);
      LongerRun(s, es, id);
      if AlwaysUnflagged(s, before, id) {
        assert before[..|before|] == before;
        StepsValid(s, before);
        NextUnflaggedIff(RunAll(s, before), es[|es| - 1], id);
      }
    }
  }

  /** A player who is not an admin at an update and has less than a second left is unprotected
      there, and from there on until an event gives protection back. */
  lemma {:induction false} ExpiredUntilGivenBack(s: State, i: nat, now: int, sights: map<Id, Sight>, current: Groups,
                                                 es: seq<Event>)
    requires Valid(s) && i < |s.all| && Due(s.nextUpdate, now)
    requires s.all[i].id !in Admins(s.cfg, RefreshGroups(s.groups, OnlineIds(s.online), current))
    requires s.all[i].start + s.cfg.hours * TICKS_PER_HOUR - now < TICKS_PER_SECOND
    ensures var t := Tick(s, now, sights, current);
            && Unflagged(t, s.all[i].id)
            && (AlwaysUnflagged(t, es, s.all[i].id) <==> AllStayOff(t, es, s.all[i].id))
  {
    hide Valid, Tick, AlwaysUnflagged, AllStayOff, Unflagged;
    var e := TickEvent(now, sights, current);
    TickExpires(s, i, now, sights, current);
    NextAges(s, e);
    NextValid(s, e);
    UniqueRecord(Next(s, e), i);
    RunUnflaggedIff(Next(s, e), es, s.all[i].id);
  }

  /** Events that give nothing back once the loss is saved: all but ResetProtection,
      AddProtection, a reload, and a restart that drops the player. */
  predicate Harmless(e: Event, id: Id) {
    Ordinary(e) || (e.RestartEvent? && id in e.kept)
  }

  predicate AllHarmless(es: seq<Event>, id: Id) {
    forall k :: 0 <= k < |es| ==> Harmless(es[k], id)
  }

  lemma {:induction false} RowAfter(s: State, e: Event, id: Id)
    requires Valid(s) && Unflagged(s, id) && (StoredUnflagged(s, id) || e.SaveEvent?)
    ensures StoredUnflagged(Next(s, e), id)
  {
  }

  lemma {:induction false} NextSettled(s: State, e: Event, id: Id)
    requires Valid(s) && Unflagged(s, id) && StoredUnflagged(s, id) && Harmless(e, id)
    ensures Unflagged(Next(s, e), id) && StoredUnflagged(Next(s, e), id)
  {
    hide Valid, Unflagged, StoredUnflagged, Next;
    RowAfter(s, e, id);
    UnflaggedIsKnown(s, id);
    NextUnflaggedIff(s, e, id);
  }

  /** A loss of protection that has been saved outlasts every restart that keeps the player. */
  lemma {:induction false} SavedLossIsFinal(s: State, es: seq<Event>, id: Id)
    requires Valid(s) && Unflagged(s, id) && StoredUnflagged(s, id) && AllHarmless(es, id)
    ensures Valid(RunAll(s, es)) && Unflagged(RunAll(s, es), id) && StoredUnflagged(RunAll(s, es), id)
  {
    hide Valid, Unflagged, StoredUnflagged, Next, Harmless;
    if es != [] {
      var m := RunAll(s, es[..|es| - 1]);
      SavedLossIsFinal(s, es[..|es| - 1], id);
      NextSettled(m, es[|es| - 1], id);
      NextValid(m, es[|es| - 1]);
    }
  }

  /** Expired, cleared by an update, and then saved: from there on the player stays unprotected,
      however the run goes on, restarts included. */
  lemma {:induction false} ExpiredAndSavedForGood(s: State, i: nat, before: seq<Event>, now: int,
                                                  sights: map<Id, Sight>, current: Groups,
                                                  between: seq<Event>, after: seq<Event>)
    requires Valid(s) && i < |s.all|
    requires forall k :: 0 <= k < |before| ==> Ordinary(before[k])
    requires forall k :: 0 <= k < |between| ==> Ordinary(between[k])
    requires AllHarmless(after, s.all[i].id)
    requires var m := RunAll(s, before);
             && Due(m.nextUpdate, now)
             && s.all[i].id !in Admins(m.cfg, RefreshGroups(m.groups, OnlineIds(m.online), current))
    requires s.all[i].start + s.cfg.hours * TICKS_PER_HOUR - now < TICKS_PER_SECOND
    ensures var es := before + [TickEvent(now, sights, current)] + between + [SaveEvent] + after;
            Unflagged(RunAll(s, es), s.all[i].id)
  {
    hide Valid, Next, Harmless, RunAll, Due, StoredUnflagged;
    var id := s.all[i].id;
    var start := before + [TickEvent(now, sights, current)] + between;
    ExpiredForGood(s, i, before, now, sights, current, between);
    var cleared := RunAll(s, start);
    StepsValid(s, start);
    UniqueRecord(cleared, i);
    RunAppend(s, start, [SaveEvent]);
    RunOne(cleared, SaveEvent);
    RowAfter(cleared, SaveEvent, id);
    OrdinaryUnflagged(cleared, SaveEvent, id);
    NextValid(cleared, SaveEvent);
    RunAppend(s, start + [SaveEvent], after);
    SavedLossIsFinal(Next(cleared, SaveEvent), after, id);
  }

  lemma {:induction false} UniqueRecord(s: State, i: nat)
    requires Valid(s) && i < |s.all| && s.all[i].flag == 0
    ensures Unflagged(s, s.all[i].id)
  {
  }

  // ---------------------------------------------------------------- cleared again

  /** Both the record and the row of the player started no later than `start`. */
  predicate StartedBy(s: State, id: Id, start: int) {
    && Known(s.all, id)
    && (forall i :: 0 <= i < |s.all| && s.all[i].id == id ==> s.all[i].start <= start)
    && id in s.rows && s.rows[id].start <= start
  }

  /** Events that never make a protection younger: even a reload and a restart do not. */
  predicate NeverYounger(e: Event, id: Id) {
    !e.ResetEvent? && !e.AddEvent? && (e.RestartEvent? ==> id in e.kept)
  }

  lemma {:induction false} RecordStays(s: State, e: Event, id: Id, start: int)
    requires StartedBy(s, id, start) && (Ordinary(e) || e.ReloadEvent?)
    ensures var t := Next(s, e);
            && Known(t.all, id)
            && forall i :: 0 <= i < |t.all| && t.all[i].id == id ==> t.all[i].start <= start
  {
    hide Next;
    var k := Find(s.all, id);
    if Ordinary(e) {
      NextAges(s, e);
    } else {
      ReloadKeepsStarts(s, e.cfg, e.now);
    }
    assert Next(s, e).all[k].id == id;
  }

  lemma {:induction false} ReloadKeepsStarts(s: State, cfg: Option<Config>, now: int)
    ensures var t := Next(s, ReloadEvent(cfg, now));
            && |t.all| == |s.all|
            && forall i :: 0 <= i < |s.all| ==> t.all[i].id == s.all[i].id && t.all[i].start == s.all[i].start
  {
  }

  lemma {:induction false} RowStays(s: State, e: Event, id: Id, start: int)
    requires StartedBy(s, id, start)
    ensures id in Next(s, e).rows && Next(s, e).rows[id].start <= start
  {
  }

  lemma {:induction false} NextStartedBy(s: State, e: Event, id: Id, start: int)
    requires Valid(s) && StartedBy(s, id, start) && NeverYounger(e, id)
    ensures StartedBy(Next(s, e), id, start)
  {
    hide Valid, Reboot;
    RowStays(s, e, id, start);
    if e.RestartEvent? {
      RestartedRecord(s, id, e.newCfg, e.kept, e.now);
    } else {
      RecordStays(s, e, id, start);
    }
  }

  lemma {:induction false} RunStartedBy(s: State, es: seq<Event>, id: Id, start: int)
    requires Valid(s) && StartedBy(s, id, start)
    requires forall k :: 0 <= k < |es| ==> NeverYounger(es[k], id)
    ensures Valid(RunAll(s, es)) && StartedBy(RunAll(s, es), id, start)
  {
    hide Valid, StartedBy, Next, NeverYounger;
    if es != [] {
      var m := RunAll(s, es[..|es| - 1]);
      RunStartedBy(s, es[..|es| - 1], id, start);
      NextStartedBy(m, es[|es| - 1], id, start);
      NextValid(m, es[|es| - 1]);
    }
  }

  /** And whatever a restart or a reload gave back to an expired player, every later update at
      which the player is not an admin takes away again, restarts or not. */
  lemma {:induction false} ExpiredAtEveryUpdate(s: State, es: seq<Event>, id: Id, start: int, now: int,
                                                sights: map<Id, Sight>, current: Groups)
    requires Valid(s) && StartedBy(s, id, start)
    requires forall k :: 0 <= k < |es| ==> NeverYounger(es[k], id)
    requires var m := RunAll(s, es);
             && Due(m.nextUpdate, now)
             && id !in Admins(m.cfg, RefreshGroups(m.groups, OnlineIds(m.online), current))
             && start + m.cfg.hours * TICKS_PER_HOUR - now < TICKS_PER_SECOND
    ensures Unflagged(RunAll(s, es + [TickEvent(now, sights, current)]), id)
  {
    hide Valid, Tick, RunAll, Due, NeverYounger;
    var m := RunAll(s, es);
    var e := TickEvent(now, sights, current);
    RunStartedBy(s, es, id, start);
    RunAppend(s, es, [e]);
    RunOne(m, e);
    NextValid(m, e);
    NextAges(m, e);
    var k := Find(m.all, id);
    TickExpires(m, k, now, sights, current);
    assert Next(m, e).all[k].id == id;
    UniqueRecord(Next(m, e), k);
  }
}
