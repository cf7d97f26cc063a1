/** `IsTribeProtected` asks whether some non-admin record of a tribe is flagged; the policy
    is that all of them are. When do the two agree? */
module TribePolicy {
  import opened Options
  import opened Time
  import opened Players
  import opened PveTribes
  import opened Protection
  import opened Invariants

  predicate UniformIn(all: seq<Player>, admins: set<Id>) {
    forall i, j :: 0 <= i < |all| && 0 <= j < |all| && all[i].id !in admins && Member(all[j], admins, all[i].tribe) ==>
                     all[i].flag == all[j].flag
  }

  /** Non-admin records of one tribe carry one flag. */
  predicate Uniform(s: State) {
    UniformIn(s.all, AdminsOf(s))
  }

  predicate AllMembersFlagged(s: State, tribe: Tribe) {
    && HasMember(s.all, AdminsOf(s), tribe)
    && forall i :: 0 <= i < |s.all| && Member(s.all[i], AdminsOf(s), tribe) ==> s.all[i].flag == 1
  }

  /** All non-admin records of the tribe carry one flag. */
  predicate UniformTribe(s: State, tribe: Tribe) {
    var admins := AdminsOf(s);
    forall i, j :: 0 <= i < |s.all| && 0 <= j < |s.all| && Member(s.all[i], admins, tribe) && Member(s.all[j], admins, tribe) ==>
                     s.all[i].flag == s.all[j].flag
  }

  /** For a tribe that is neither PVE nor below the lowest id, the existential scan decides the
      universal policy exactly when the tribe's flags are uniform. */
  lemma {:induction false} ScanIsPolicyIffUniform(s: State, tribe: Tribe)
    requires Valid(s) && tribe > LOWEST_TRIBE && !IsPve(s.pve, tribe)
    ensures (TribeProtected(s, tribe) <==> AllMembersFlagged(s, tribe)) <==> UniformTribe(s, tribe)
  {
  }

  /** Where all tribes are uniform the scan is the policy for each of them. */
  lemma {:induction false} ScanIsPolicy(s: State, tribe: Tribe)
    requires Valid(s) && Uniform(s) && tribe > LOWEST_TRIBE && !IsPve(s.pve, tribe)
    ensures TribeProtected(s, tribe) <==> AllMembersFlagged(s, tribe)
  {
  }

  /** Right after every timer update, and after a reload, the scan is the policy. */
  lemma {:induction false} UpdateMakesUniform(s: State, now: int, sights: map<Id, Sight>, current: Groups)
    requires Valid(s) && Due(s.nextUpdate, now)
    ensures Uniform(Tick(s, now, sights, current))
  {
  }

  lemma {:induction false} ReloadMakesUniform(s: State, cfg: Option<Config>, now: int)
    requires Valid(s)
    ensures Uniform(Reload(s, cfg, now))
  {
  }

  /** Disable, RemoveProtection, ResetProtection and AddProtection treat a tribe as a whole. */
  lemma {:induction false} CommandsKeepUniform(s: State, e: Event)
    requires Valid(s) && Uniform(s)
    requires e.DisableEvent? || e.RemoveEvent? || e.ResetEvent? || e.AddEvent?
    ensures Uniform(Next(s, e))
  {
  }

  // ---------------------------------------------------------------- what breaks it

  /** Every non-admin record of the tribe carries this flag. */
  predicate AllCarry(s: State, tribe: Tribe, flag: int) {
    forall j :: 0 <= j < |s.all| && Member(s.all[j], AdminsOf(s), tribe) ==> s.all[j].flag == flag
  }

  /** Rows of one tribe that a restart would load carry one flag. */
  predicate RowsAgree(rows: map<Id, Player>, kept: set<Id>) {
    forall a, b :: a in rows && b in rows && a in kept && b in kept && rows[a].tribe == rows[b].tribe ==>
                     rows[a].flag == rows[b].flag
  }

  /** The events after which the tribes are still uniform, read off the state before: a player
      who logs in without being an admin, or logs out having been one, must carry the flag of the
      tribe, and so must all rows that a restart loads. */
  predicate KeepsUniform(s: State, e: Event) {
    match e
    case LoginEvent(id, team, now, memberOf) =>
      var p := OnlineRecord(s.all, id, team, now);
      !IsAdmin(s.cfg, map[id := memberOf], id) ==> AllCarry(s, p.tribe, p.flag)
    case LogoutEvent(id) =>
      id in AdminsOf(s) && Known(s.all, id) ==>
        var p := s.all[Find(s.all, id)];
        AllCarry(s, p.tribe, p.flag)
    case RestartEvent(_, kept, _) => RowsAgree(s.rows, kept)
    case _ => true
  }

  lemma {:induction false} LoginShape(s: State, id: Id, team: Tribe, now: int, groups: seq<string>)
    requires Valid(s)
    ensures var t := Login(s, id, team, now, groups);
            var n := |s.all|;
            && (forall i :: 0 <= i < n ==>
                  i < |t.all| && t.all[i].id == s.all[i].id && t.all[i].tribe == s.all[i].tribe && t.all[i].flag == s.all[i].flag)
            && (if Known(s.all, id) then |t.all| == n
                else t.all == s.all + [OnlineRecord(s.all, id, team, now)])
  {
    var t := Login(s, id, team, now, groups);
    if !Known(s.all, id) {
      NotOnlineUnlessKnown(s, id);
      LoginAppends(s, id, team, now, groups);
    }
  }

  lemma {:induction false} LoginAdmins(s: State, id: Id, team: Tribe, now: int, groups: seq<string>)
    ensures var t := Login(s, id, team, now, groups);
            && (id in AdminsOf(t) <==> IsAdmin(s.cfg, map[id := groups], id))
            && forall other :: other != id ==> (other in AdminsOf(t) <==> other in AdminsOf(s))
  {
  }

  lemma {:induction false} NotOnlineUnlessKnown(s: State, id: Id)
    requires Valid(s) && !Known(s.all, id)
    ensures !IsOnline(s.online, id)
  {
  }

  lemma {:induction false} LoginAppends(s: State, id: Id, team: Tribe, now: int, groups: seq<string>)
    requires !Known(s.all, id) && !IsOnline(s.online, id)
    ensures Login(s, id, team, now, groups).all == s.all + [Player(id, team, now, now, 1, 1)]
  {
  }

  /** Where the record of the player is after the login. */
  function Seat(s: State, id: Id): nat {
    if Known(s.all, id) then Find(s.all, id) else |s.all|
  }

  lemma {:induction false} LoginSeat(s: State, id: Id, team: Tribe, now: int, groups: seq<string>)
    requires Valid(s)
    ensures var t := Login(s, id, team, now, groups);
            var p := OnlineRecord(s.all, id, team, now);
            var k := Seat(s, id);
            && k < |t.all| && t.all[k].id == id && t.all[k].tribe == p.tribe && t.all[k].flag == p.flag
            && forall i :: 0 <= i < |t.all| && i != k ==> t.all[i].id != id && i < |s.all|
  {
    hide Login;
    LoginShape(s, id, team, now, groups);
  }

  /** A login keeps the tribes uniform exactly when the player is an admin or carries the flag of
      the tribe. */
  lemma {:induction false} LoginKeepsUniform(s: State, id: Id, team: Tribe, now: int, groups: seq<string>)
    requires Valid(s) && Uniform(s)
    ensures Uniform(Login(s, id, team, now, groups)) <==> KeepsUniform(s, LoginEvent(id, team, now, groups))
  {
    hide Login, Admins, Seat, Valid, OnlineRecord;
    var t := Login(s, id, team, now, groups);
    var p := OnlineRecord(s.all, id, team, now);
    var k := Seat(s, id);
    LoginShape(s, id, team, now, groups);
    LoginAdmins(s, id, team, now, groups);
    LoginSeat(s, id, team, now, groups);
    if Uniform(t) && id !in AdminsOf(t) {
      forall j | 0 <= j < |s.all| && Member(s.all[j], AdminsOf(s), p.tribe)
        ensures s.all[j].flag == p.flag
      {
        assert t.all[j].id !in AdminsOf(t) && Member(t.all[k], AdminsOf(t), t.all[j].tribe);
      }
    }
    if id in AdminsOf(t) || AllCarry(s, p.tribe, p.flag) {
      forall i, j | 0 <= i < |t.all| && 0 <= j < |t.all| && t.all[i].id !in AdminsOf(t)
                    && Member(t.all[j], AdminsOf(t), t.all[i].tribe)
        ensures t.all[i].flag == t.all[j].flag
      {
        assert i != k ==> s.all[i].id !in AdminsOf(s);
        assert j != k ==> Member(s.all[j], AdminsOf(s), t.all[i].tribe);
      }
    }
  }

  /** So a new player of a tribe that has lost protection brings the protection of the whole
      tribe back until the next update. */
  lemma {:induction false} NewPlayerKeepsUniform(s: State, id: Id, team: Tribe, now: int, groups: seq<string>)
    requires Valid(s) && Uniform(s)
    requires !Known(s.all, id) && id !in AdminsOf(Login(s, id, team, now, groups))
    ensures Uniform(Login(s, id, team, now, groups)) <==>
            forall i :: 0 <= i < |s.all| && Member(s.all[i], AdminsOf(s), team) ==> s.all[i].flag == 1
  {
    hide Uniform, Login, Admins;
    LoginAdmins(s, id, team, now, groups);
    LoginKeepsUniform(s, id, team, now, groups);
  }

  lemma {:induction false} LogoutAdmins(s: State, id: Id)
    ensures Logout(s, id).all == s.all
    ensures forall other :: other in AdminsOf(Logout(s, id)) <==> other in AdminsOf(s) && other != id
  {
  }

  /** A logout drops an admin from the cache, so the record counts as a member again. */
  lemma {:induction false} LogoutKeepsUniform(s: State, i: nat)
    requires Valid(s) && Uniform(s)
    requires i < |s.all| && s.all[i].id in AdminsOf(s)
    ensures Uniform(Logout(s, s.all[i].id)) <==>
            forall j :: 0 <= j < |s.all| && Member(s.all[j], AdminsOf(s), s.all[i].tribe) ==>
              s.all[j].flag == s.all[i].flag
  {
    hide Admins, Logout;
    var id := s.all[i].id;
    var t := Logout(s, id);
    LogoutAdmins(s, id);
    if Uniform(t) {
      forall j | 0 <= j < |s.all| && Member(s.all[j], AdminsOf(s), s.all[i].tribe)
        ensures s.all[j].flag == s.all[i].flag
      {
        assert t.all[j].id !in AdminsOf(t) && t.all[i].id !in AdminsOf(t);
      }
    }
  }

  lemma {:induction false} LogoutKeepsUniformIff(s: State, id: Id)
    requires Valid(s) && Uniform(s)
    ensures Uniform(Logout(s, id)) <==> KeepsUniform(s, LogoutEvent(id))
  {
    hide Uniform;
    if id in AdminsOf(s) && Known(s.all, id) {
      LogoutKeepsUniform(s, Find(s.all, id));
    } else {
      OtherLogout(s, id);
    }
  }

  lemma {:induction false} OtherLogout(s: State, id: Id)
    requires Valid(s) && Uniform(s) && !(id in AdminsOf(s) && Known(s.all, id))
    ensures Uniform(Logout(s, id))
  {
    var t := Logout(s, id);
    forall i | 0 <= i < |s.all|
      ensures s.all[i].id in AdminsOf(t) <==> s.all[i].id in AdminsOf(s)
    {
    }
  }

  /** Nobody is in the cache after a restart, so every loaded record counts. */
  lemma {:induction false} RestartKeepsUniform(s: State, cfg: Config, kept: set<Id>, now: int)
    requires Valid(s)
    ensures Uniform(Reboot(s, cfg, kept, now)) <==> RowsAgree(s.rows, kept)
  {
    hide Load;
    var t := Reboot(s, cfg, kept, now);
    forall p: Player {
      Loaded(s.rows, kept, p);
    }
    assert AdminsOf(t) == {};
    assert forall i :: 0 <= i < |t.all| ==> t.all[i] in t.all;
    if Uniform(t) {
      forall a, b | a in s.rows && b in s.rows && a in kept && b in kept && s.rows[a].tribe == s.rows[b].tribe
        ensures s.rows[a].flag == s.rows[b].flag
      {
        assert s.rows[a] in t.all && s.rows[b] in t.all;
        var i :| 0 <= i < |t.all| && t.all[i] == s.rows[a];
        var j :| 0 <= j < |t.all| && t.all[j] == s.rows[b];
        assert Member(t.all[j], AdminsOf(t), t.all[i].tribe);
      }
    }
  }

  /** Which events keep the tribes uniform: exactly those that meet their guard. */
  lemma {:induction false} NextUniformIff(s: State, e: Event)
    requires Valid(s) && Uniform(s)
    ensures Uniform(Next(s, e)) <==> KeepsUniform(s, e)
  {
    hide Valid, Uniform, Login, Logout, Reboot, Reload, Tick, Disable, RemoveProtection, Grant;
    match e
    case LoginEvent(id, team, now, memberOf) => LoginKeepsUniform(s, id, team, now, memberOf);
    case LogoutEvent(id) => LogoutKeepsUniformIff(s, id);
    case TickEvent(now, sights, current) => TickKeepsUniform(s, now, sights, current);
    case SetPveEvent(tribe, on, rcon) => SameRecords(s, Next(s, e));
    case ReloadEvent(cfg, now) => ReloadMakesUniform(s, cfg, now);
    case NotifyEvent(id, now) => SameRecords(s, Next(s, e));
    case SaveEvent => SameRecords(s, Next(s, e));
    case RestartEvent(cfg, kept, now) => RestartKeepsUniform(s, cfg, kept, now);
    case _ => CommandsKeepUniform(s, e);
  }

  lemma {:induction false} TickKeepsUniform(s: State, now: int, sights: map<Id, Sight>, current: Groups)
    requires Valid(s) && Uniform(s)
    ensures Uniform(Tick(s, now, sights, current))
  {
    hide Uniform, Swept;
    if Due(s.nextUpdate, now) {
      UpdateMakesUniform(s, now, sights, current);
    }
  }

  lemma {:induction false} SameRecords(s: State, t: State)
    requires t.all == s.all && t.groups == s.groups && t.cfg == s.cfg && Uniform(s)
    ensures Uniform(t)
  {
  }

  // ---------------------------------------------------------------- whole runs

  /** Every event of the run meets its guard in the state in which it happens. */
  predicate AllKeepUniform(s: State, es: seq<Event>) {
    forall k :: 0 <= k < |es| ==> KeepsUniform(RunAll(s, es[..k]), es[k])
  }

  predicate AlwaysUniform(s: State, es: seq<Event>) {
    forall k :: 0 <= k <= |es| ==> Uniform(RunAll(s, es[..k]))
  }

  lemma {:induction false} PrefixesOf(s: State, es: seq<Event>)
    requires es != []
    ensures AllKeepUniform(s, es) <==>
            AllKeepUniform(s, es[..|es| - 1]) && KeepsUniform(RunAll(s, es[..|es| - 1]), es[|es| - 1])
    ensures AlwaysUniform(s, es) <==> AlwaysUniform(s, es[..|es| - 1]) && Uniform(RunAll(s, es))
  {
    hide Uniform, KeepsUniform, RunAll;
    var n := |es| - 1;
    assert es[..|es|] == es;
    assert forall k :: 0 <= k <= n ==> es[..n][..k] == es[..k];
    assert AllKeepUniform(s, es[..n]) <==> forall k :: 0 <= k < n ==> KeepsUniform(RunAll(s, es[..k]), es[k]);
    assert AlwaysUniform(s, es[..n]) <==> forall k :: 0 <= k <= n ==> Uniform(RunAll(s, es[..k]));
  }

  /** The tribes are uniform throughout a run exactly when every event meets its guard. */
  lemma {:induction false} RunUniformIff(s: State, es: seq<Event>)
    requires Valid(s) && Uniform(s)
    ensures AlwaysUniform(s, es) <==> AllKeepUniform(s, es)
  {
    hide Valid, Uniform, KeepsUniform, Next;
    if es != [] {
      var before := es[..|es| - 1];
      RunUniformIff(s, before);
      PrefixesOf(s, es);
      if AlwaysUniform(s, before) {
        assert before[..|before|] == before;
        StepsValid(s, before);
        NextUniformIff(RunAll(s, before), es[|es| - 1]);
      }
    } else {
      assert es[..0] == [];
    }
  }

  /** From an update on, and as long as every event meets its guard, the existential scan is the
      universal policy for every tribe that can be protected. */
  lemma {:induction false} ScanIsPolicySinceUpdate(s: State, now: int, sights: map<Id, Sight>, current: Groups,
                                                   es: seq<Event>, tribe: Tribe)
    requires Valid(s) && Due(s.nextUpdate, now) && tribe > LOWEST_TRIBE
    requires AllKeepUniform(Tick(s, now, sights, current), es)
    requires !IsPve(RunAll(Tick(s, now, sights, current), es).pve, tribe)
    ensures var t := RunAll(Tick(s, now, sights, current), es);
            TribeProtected(t, tribe) <==> AllMembersFlagged(t, tribe)
  {
    hide Valid, Uniform, KeepsUniform, Tick, RunAll, TribeProtected, AllMembersFlagged, IsPve, Due;
    var first := Tick(s, now, sights, current);
    UpdateMakesUniform(s, now, sights, current);
    NextValid(s, TickEvent(now, sights, current));
    RunUniformIff(first, es);
    assert es[..|es|] == es;
    StepsValid(first, es);
    ScanIsPolicy(RunAll(first, es), tribe);
  }
}
