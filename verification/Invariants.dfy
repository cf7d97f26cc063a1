/** What holds in every reachable state: the online list mirrors the full list, the group
    cache covers exactly the online players, the PVE lists agree with their table. */
module Invariants {
  import opened Options
  import opened Time
  import opened Players
  import opened Sweep
  import opened PveTribes
  import opened Protection

  /** The start time is left out: AddProtection gives the two records different ones. */
  predicate Twin(a: Player, b: Player) {
    a.id == b.id && a.tribe == b.tribe && a.level == b.level && a.flag == b.flag && a.lastLogin == b.lastLogin
  }

  predicate HasTwin(all: seq<Player>, p: Player) {
    exists i :: 0 <= i < |all| && Twin(all[i], p)
  }

  predicate Mirror(all: seq<Player>, online: seq<OnlinePlayer>) {
    && UniqueIds(all)
    && UniqueOnline(online)
    && forall j :: 0 <= j < |online| ==> HasTwin(all, online[j].data)
  }

  predicate Binary(all: seq<Player>) {
    forall i :: 0 <= i < |all| ==> all[i].flag == 0 || all[i].flag == 1
  }

  predicate RowsValid(rows: map<Id, Player>) {
    forall id :: id in rows ==> rows[id].id == id && (rows[id].flag == 0 || rows[id].flag == 1)
  }

  predicate Valid(s: State) {
    && Mirror(s.all, s.online)
    && s.groups.Keys == OnlineIds(s.online)
    && Binary(s.all)
    && Consistent(s.pve)
    && RowsValid(s.rows)
  }

  // ---------------------------------------------------------------- steps that map the lists

  /** Mapping both lists keeps the mirror when twins go to twins. */
  lemma {:induction false} MirrorMapped(all: seq<Player>, online: seq<OnlinePlayer>, all': seq<Player>, online': seq<OnlinePlayer>)
    requires Mirror(all, online)
    requires |all'| == |all| && |online'| == |online|
    requires forall i :: 0 <= i < |all| ==> all'[i].id == all[i].id
    requires forall j :: 0 <= j < |online| ==> online'[j].data.id == online[j].data.id
    requires forall i, j :: 0 <= i < |all| && 0 <= j < |online| && Twin(all[i], online[j].data) ==>
               Twin(all'[i], online'[j].data)
    ensures Mirror(all', online')
    ensures OnlineIds(online') == OnlineIds(online)
  {
  }

  lemma {:induction false} SweptValid(s: State, now: int)
    requires Valid(s)
    ensures Valid(Swept(s, now))
  {
    var t := Swept(s, now);
    MirrorMapped(s.all, s.online, t.all, t.online);
  }

  lemma {:induction false} RefreshMirror(all: seq<Player>, online: seq<OnlinePlayer>, ids: set<Id>, sights: map<Id, Sight>)
    requires Mirror(all, online)
    ensures Mirror(RefreshAll(all, ids, sights), RefreshOnline(online, ids, sights))
    ensures OnlineIds(RefreshOnline(online, ids, sights)) == OnlineIds(online)
  {
    MirrorMapped(all, online, RefreshAll(all, ids, sights), RefreshOnline(online, ids, sights));
  }

  lemma {:induction false} RefreshBinary(all: seq<Player>, ids: set<Id>, sights: map<Id, Sight>)
    requires Binary(all)
    ensures Binary(RefreshAll(all, ids, sights))
  {
  }

  lemma {:induction false} RefreshGroupsKeys(cached: Groups, ids: set<Id>, current: Groups)
    ensures RefreshGroups(cached, ids, current).Keys == cached.Keys
  {
  }

  lemma {:induction false} RefreshValid(s: State, sights: map<Id, Sight>, current: Groups)
    requires Valid(s)
    ensures Valid(Refresh(s, sights, current))
  {
    var ids := OnlineIds(s.online);
    RefreshMirror(s.all, s.online, ids, sights);
    RefreshGroupsKeys(s.groups, ids, current);
    RefreshBinary(s.all, ids, sights);
  }

  lemma {:induction false} ClearValid(s: State, tribe: Tribe)
    requires Valid(s)
    ensures Valid(ClearTribe(s, tribe))
  {
    var t := ClearTribe(s, tribe);
    MirrorMapped(s.all, s.online, t.all, t.online);
  }

  lemma {:induction false} GrantValid(s: State, tribe: Tribe, now: int, delta: int)
    requires Valid(s)
    ensures Valid(Grant(s, tribe, now, delta))
  {
    if Eligible(s, tribe) {
      var t := Grant(s, tribe, now, delta);
      MirrorMapped(s.all, s.online, t.all, t.online);
    }
  }

  lemma {:induction false} RaiseValid(s: State)
    requires Valid(s)
    ensures Valid(s.(all := RaiseAll(s.all), online := RaiseOnline(s.online)))
  {
    MirrorMapped(s.all, s.online, RaiseAll(s.all), RaiseOnline(s.online));
  }

  lemma {:induction false} NotifyValid(s: State, id: Id, now: int)
    requires Valid(s)
    ensures Valid(Notify(s, id, now))
  {
    MirrorMapped(s.all, s.online, s.all, Notify(s, id, now).online);
  }

  // ---------------------------------------------------------------- steps that grow or shrink them

  lemma {:induction false} AddNewValid(s: State, id: Id, team: Tribe, now: int)
    requires Valid(s)
    ensures Valid(s.(all := AddNew(s.all, id, team, now)))
    ensures Known(AddNew(s.all, id, team, now), id)
  {
    var all := AddNew(s.all, id, team, now);
    if !Known(s.all, id) {
      assert all[|s.all|].id == id;
      forall i | 0 <= i < |s.all|
        ensures all[i].id != id
      {
        assert all[i] == s.all[i];
      }
      forall j | 0 <= j < |s.online|
        ensures HasTwin(all, s.online[j].data)
      {
        assert HasTwin(s.all, s.online[j].data);
        var i :| 0 <= i < |s.all| && Twin(s.all[i], s.online[j].data);
        assert Twin(all[i], s.online[j].data);
      }
    }
  }

  lemma {:induction false} AddOnlineMirror(all: seq<Player>, online: seq<OnlinePlayer>, id: Id, team: Tribe, now: int)
    requires Mirror(all, online) && Known(all, id) && !IsOnline(online, id)
    ensures Mirror(Touch(all, id, now), online + [OnlinePlayer(OnlineRecord(all, id, team, now), now)])
  {
    var all' := Touch(all, id, now);
    var added := OnlinePlayer(OnlineRecord(all, id, team, now), now);
    var k := Find(all, id);
    forall j | 0 <= j < |online|
      ensures HasTwin(all', online[j].data) && online[j].data.id != id
    {
      assert HasTwin(all, online[j].data);
      var i :| 0 <= i < |all| && Twin(all[i], online[j].data);
      assert i != k && Twin(all'[i], online[j].data);
    }
    assert Twin(all'[k], added.data);
    assert HasTwin(all', added.data);
  }

  lemma {:induction false} LoginValid(s: State, id: Id, team: Tribe, now: int, groups: seq<string>)
    requires Valid(s)
    ensures Valid(Login(s, id, team, now, groups))
  {
    AddNewValid(s, id, team, now);
    var t := Login(s, id, team, now, groups);
    if !IsOnline(s.online, id) {
      AddOnlineMirror(AddNew(s.all, id, team, now), s.online, id, team, now);
      OnlineIdsAppend(s.online, t.online[|s.online|]);
    }
  }

  lemma {:induction false} OnlineIdsAppend(online: seq<OnlinePlayer>, o: OnlinePlayer)
    ensures OnlineIds(online + [o]) == OnlineIds(online) + {o.data.id}
  {
    var more := online + [o];
    forall id
      ensures IsOnline(more, id) <==> IsOnline(online, id) || id == o.data.id
    {
      if IsOnline(online, id) {
        var i :| 0 <= i < |online| && online[i].data.id == id;
        assert more[i].data.id == id;
      }
      assert more[|online|].data.id == o.data.id;
    }
  }

  lemma {:induction false} RemovedMirror(all: seq<Player>, online: seq<OnlinePlayer>, id: Id)
    requires Mirror(all, online) && IsOnline(online, id)
    ensures Mirror(all, Removed(online, id))
  {
  }

  lemma {:induction false} DroppedId(online: seq<OnlinePlayer>, k: nat, less: seq<OnlinePlayer>, other: Id)
    requires UniqueOnline(online) && k < |online|
    requires less == online[..k] + online[k + 1..]
    ensures IsOnline(less, other) <==> IsOnline(online, other) && other != online[k].data.id
  {
    if IsOnline(online, other) && other != online[k].data.id {
      var j :| 0 <= j < |online| && online[j].data.id == other;
      assert less[if j < k then j else j - 1] == online[j];
    }
    if IsOnline(less, other) {
      var j :| 0 <= j < |less| && less[j].data.id == other;
      assert less[j] == online[if j < k then j else j + 1];
    }
  }

  lemma {:induction false} RemovedIds(online: seq<OnlinePlayer>, id: Id)
    requires UniqueOnline(online)
    ensures OnlineIds(Removed(online, id)) == OnlineIds(online) - {id}
  {
    if IsOnline(online, id) {
      forall other
        ensures IsOnline(Removed(online, id), other) <==> IsOnline(online, other) && other != id
      {
        DroppedId(online, FindOnline(online, id), Removed(online, id), other);
      }
    }
  }

  lemma {:induction false} LogoutValid(s: State, id: Id)
    requires Valid(s)
    ensures Valid(Logout(s, id))
  {
    RemovedIds(s.online, id);
    if IsOnline(s.online, id) {
      RemovedMirror(s.all, s.online, id);
    }
  }

  lemma {:induction false} RebootValid(s: State, cfg: Config, kept: set<Id>, now: int)
    requires Valid(s)
    ensures Valid(Reboot(s, cfg, kept, now))
  {
    var ids := Ascending(s.rows.Keys * kept);
    AscendingIsOrdered(s.rows.Keys * kept);
    var all := Load(s.rows, kept);
    forall i | 0 <= i < |all|
      ensures all[i].id == ids[i] && (all[i].flag == 0 || all[i].flag == 1)
    {
      assert ids[i] in s.rows.Keys * kept;
    }
  }

  lemma {:induction false} Loaded(rows: map<Id, Player>, kept: set<Id>, p: Player)
    requires forall id :: id in rows ==> rows[id].id == id
    ensures p in Load(rows, kept) <==> p.id in rows && p.id in kept && rows[p.id] == p
  {
    var ids := Ascending(rows.Keys * kept);
    AscendingIsOrdered(rows.Keys * kept);
    var all := Load(rows, kept);
    assert forall k :: 0 <= k < |ids| ==> ids[k] in rows.Keys * kept && all[k] == rows[ids[k]];
    if p.id in rows && p.id in kept && rows[p.id] == p {
      assert p.id in ids;
      var k :| 0 <= k < |ids| && ids[k] == p.id;
      assert all[k] == p;
    }
  }

  lemma {:induction false} StoredValid(all: seq<Player>)
    requires Binary(all)
    ensures RowsValid(Stored(all))
  {
  }

  lemma {:induction false} SaveValid(s: State)
    requires Valid(s)
    ensures Valid(SaveWorld(s))
  {
    SaveIsFaithful(s.pve);
    StoredValid(s.all);
  }

  // ---------------------------------------------------------------- every run

  lemma {:induction false} TickValid(s: State, now: int, sights: map<Id, Sight>, current: Groups)
    requires Valid(s)
    ensures Valid(Tick(s, now, sights, current))
  {
    hide Swept, Refresh;
    if Due(s.nextUpdate, now) {
      var t := s.(nextUpdate := now + s.interval * TICKS_PER_MINUTE);
      RefreshValid(t, sights, current);
      SweptValid(Refresh(t, sights, current), now);
    }
  }

  lemma {:induction false} ReloadValid(s: State, cfg: Option<Config>, now: int)
    requires Valid(s)
    ensures Valid(Reload(s, cfg, now))
  {
    hide Swept, RaiseAll, RaiseOnline;
    RaiseValid(s);
    var loaded := if cfg.Some? then s.(cfg := cfg.value, nextUpdate := now) else s;
    SweptValid(loaded.(all := RaiseAll(s.all), online := RaiseOnline(s.online)), now);
  }

  lemma {:induction false} SetPveValid(s: State, tribe: Tribe, on: bool, rcon: bool)
    requires Valid(s)
    ensures Valid(SetTribePve(s, tribe, on, rcon))
  {
    hide SetPve, Consistent;
    SetRefines(s.pve, tribe, on, HasMember(s.all, AdminsOf(s), tribe), rcon);
  }

  lemma {:induction false} NextValid(s: State, e: Event)
    requires Valid(s)
    ensures Valid(Next(s, e))
  {
    hide Valid, Login, Logout, Tick, ClearTribe, Grant, SetTribePve, Reload, Notify, SaveWorld, Reboot;
    hide PlayerProtected, IsPve;
    match e
    case LoginEvent(id, team, now, memberOf) => LoginValid(s, id, team, now, memberOf);
    case LogoutEvent(id) => LogoutValid(s, id);
    case TickEvent(now, sights, current) => TickValid(s, now, sights, current);
    case DisableEvent(id, team, alive, leader) => ClearValid(s, team);
    case RemoveEvent(tribe) => ClearValid(s, tribe);
    case ResetEvent(tribe, now) => GrantValid(s, tribe, now, 0);
    case AddEvent(tribe, hours, now) =>
      GrantValid(s, tribe, now, HoursDelta(hours, s.cfg.hours) * TICKS_PER_HOUR);
    case SetPveEvent(tribe, on, rcon) => SetPveValid(s, tribe, on, rcon);
    case ReloadEvent(cfg, now) => ReloadValid(s, cfg, now);
    case NotifyEvent(id, now) => NotifyValid(s, id, now);
    case SaveEvent => SaveValid(s);
    case RestartEvent(cfg, kept, now) => RebootValid(s, cfg, kept, now);
  }

  lemma {:induction false} StepsValid(s: State, es: seq<Event>)
    requires Valid(s)
    ensures Valid(RunAll(s, es))
  {
    hide Valid, Next;
    if es != [] {
      StepsValid(s, es[..|es| - 1]);
      NextValid(RunAll(s, es[..|es| - 1]), es[|es| - 1]);
    }
  }

  lemma {:induction false} UniqueWhenValid(s: State)
    requires Valid(s)
    ensures UniqueIds(s.all)
  {
  }

  /** The mirror invariant over every run of hooks, ticks, commands, saves and restarts. */
  lemma {:induction false} RunValid(cfg: Config, now: int, es: seq<Event>)
    ensures Valid(RunAll(Initial(cfg, now), es))
  {
    StepsValid(Initial(cfg, now), es);
  }

  /** So the scan of the online list answers what the full record says. */
  lemma {:induction false} ProtectedPlayerByFullRecord(s: State, i: nat)
    requires Valid(s) && i < |s.all|
    ensures PlayerProtected(s, s.all[i].id) <==>
            IsOnline(s.online, s.all[i].id) && s.all[i].id !in AdminsOf(s) && s.all[i].flag == 1
  {
  }

  /** A player is protected exactly when online, no admin and flagged in the full list. */
  lemma {:induction false} WhoIsProtected(s: State, id: Id)
    requires Valid(s)
    ensures PlayerProtected(s, id) <==>
            && id !in AdminsOf(s) && IsOnline(s.online, id)
            && exists i :: 0 <= i < |s.all| && s.all[i].id == id && s.all[i].flag == 1
  {
    hide IsAdmin;
    if IsOnline(s.online, id) {
      var k := FindOnline(s.online, id);
      var i :| 0 <= i < |s.all| && Twin(s.all[i], s.online[k].data);
    }
  }

  /** RemoveProtection's search for a flagged record is only an answer to the admin: in a
      reachable state the command clears the tribe in every case. */
  lemma {:induction false} RemoveAlwaysClears(s: State, tribe: Tribe)
    requires Valid(s)
    ensures RemoveProtection(s, tribe) == ClearTribe(s, tribe)
  {
  }

  /** A protection granted by AddProtection leaves the start times of an online member's two
      records equal exactly when nothing is shifted. */
  lemma {:induction false} AddBreaksStartTimes(s: State, tribe: Tribe, now: int, delta: int, i: nat, j: nat)
    requires Valid(s) && Eligible(s, tribe)
    requires i < |s.all| && j < |s.online| && Twin(s.all[i], s.online[j].data)
    requires Member(s.all[i], AdminsOf(s), tribe)
    ensures var t := Grant(s, tribe, now, delta);
            t.all[i].start == t.online[j].data.start <==> delta == 0
  {
    var admins := AdminsOf(s);
    var d := Data(s.online);
    var k := CountMembers(s.all[..i + 1], admins, tribe);
    var n := CountMembers(s.all, admins, tribe);
    var m := CountMembers(d[..j + 1], admins, tribe);
    CountPrefix(s.all, i + 1, admins, tribe);
    assert d[..j + 1][..j] == d[..j];
    assert m >= 1;
    var t := Grant(s, tribe, now, delta);
    assert t.all[i].start == now + k * delta;
    assert t.online[j].data.start == now + n * delta + m * delta;
    Distribute(n, m, k, delta);
  }

  lemma {:induction false} Distribute(n: int, m: int, k: int, delta: int)
    ensures n * delta + m * delta - k * delta == (n + m - k) * delta
    ensures n + m - k != 0 ==> ((n + m - k) * delta == 0 <==> delta == 0)
  {
  }

  lemma {:induction false} CountPrefix(all: seq<Player>, i: nat, admins: set<Id>, tribe: Tribe)
    requires i <= |all|
    ensures CountMembers(all[..i], admins, tribe) <= CountMembers(all, admins, tribe)
    decreases |all|
  {
    if i < |all| {
      var rest := all[..|all| - 1];
      CountPrefix(rest, i, admins, tribe);
      assert rest[..i] == all[..i];
    } else {
      assert all[..i] == all;
    }
  }
}
