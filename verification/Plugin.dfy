/** The plugin as it runs: global lists updated in place by loops. Every method is proved
    to compute the step of the same name in Protection.dfy. */
module Plugin {
  import opened Options
  import opened Time
  import opened Players
  import opened Vectors
  import opened Sweep
  import opened PveTribes
  import opened Protection
  import opened Invariants

  class NewPlayerProtection {
    var cfg: Config
    var all: seq<Player>
    var online: seq<OnlinePlayer>
    var groups: Groups
    var listed: seq<Tribe>
    var removed: seq<Tribe>
    var table: map<Tribe, bool>
    var nextUpdate: int
    var interval: int
    var rows: map<Id, Player>

    ghost function PveView(): Pve
      reads this
    {
      Pve(listed, removed, table)
    }

    ghost function View(): State
      reads this
    {
      State(cfg, all, online, groups, PveView(), nextUpdate, interval, rows)
    }

    /** A first start on empty tables. */
    constructor (config: Config, now: int)
      ensures View() == Initial(config, now)
      ensures Valid(View())
    {
      cfg := config;
      all, online, groups := [], [], map[];
      listed, removed, table := [], [], map[];
      nextUpdate, interval := now, config.updateInterval;
      rows := map[];
    }

    // ------------------------------------------------------------ searches

    /** `std::find_if` over the full list. */
    method FindPlayer(id: Id) returns (k: nat)
      ensures k <= |all|
      ensures k < |all| ==> Known(all, id) && k == Find(all, id)
      ensures k == |all| ==> !Known(all, id)
    {
      k := 0;
      while k < |all| && all[k].id != id
        invariant k <= |all|
        invariant forall i :: 0 <= i < k ==> all[i].id != id
      {
        k := k + 1;
      }
    }

    method FindOnlinePlayer(id: Id) returns (k: nat)
      ensures k <= |online|
      ensures k < |online| ==> IsOnline(online, id) && k == FindOnline(online, id)
      ensures k == |online| ==> !IsOnline(online, id)
    {
      k := 0;
      while k < |online| && online[k].data.id != id
        invariant k <= |online|
        invariant forall i :: 0 <= i < k ==> online[i].data.id != id
      {
        k := k + 1;
      }
    }

    method IsPveTribe(tribe: Tribe) returns (b: bool)
      ensures b == IsPve(PveView(), tribe)
    {
      b := tribe in listed;
    }

    method IsTribeProtected(tribe: Tribe) returns (b: bool)
      ensures b == TribeProtected(View(), tribe)
      ensures b <==> tribe > 100_000
                     && (tribe in listed
                         || exists i :: 0 <= i < |all| && !IsAdmin(cfg, groups, all[i].id)
                                        && all[i].tribe == tribe && all[i].flag == 1)
    {
      b := false;
      if tribe > LOWEST_TRIBE {
        var pve := IsPveTribe(tribe);
        if pve {
          return true;
        }
        var i := 0;
        while i < |all|
          invariant i <= |all|
          invariant forall k :: 0 <= k < i ==> !(Member(all[k], AdminsOf(View()), tribe) && all[k].flag == 1)
        {
          if !IsAdmin(cfg, groups, all[i].id) && all[i].tribe == tribe && all[i].flag == 1 {
            assert Member(all[i], AdminsOf(View()), tribe);
            return true;
          }
          i := i + 1;
        }
      }
    }

    /** The source scans on past an admin's record and finds nothing more. */
    method IsPlayerProtected(id: Id) returns (b: bool)
      ensures b == PlayerProtected(View(), id)
    {
      var i := 0;
      while i < |online|
        invariant i <= |online|
        invariant forall k :: 0 <= k < i ==> online[k].data.id != id || id in AdminsOf(View())
      {
        if online[i].data.id == id && !IsAdmin(cfg, groups, id) {
          return online[i].data.flag != 0;
        }
        i := i + 1;
      }
      return false;
    }

    // ------------------------------------------------------------ login, logout

    method AddNewPlayer(id: Id, team: Tribe, now: int)
      modifies this`all
      ensures all == AddNew(old(all), id, team, now)
    {
      var k := FindPlayer(id);
      if k == |all| {
        all := all + [Player(id, team, now, now, 1, 1)];
      }
    }

    method AddOnlinePlayer(id: Id, team: Tribe, now: int)
      modifies this`all, this`online
      ensures IsOnline(old(online), id) ==> all == old(all) && online == old(online)
      ensures !IsOnline(old(online), id) ==>
                && all == Touch(old(all), id, now)
                && online == old(online) + [OnlinePlayer(OnlineRecord(old(all), id, team, now), now)]
    {
      var k := FindOnlinePlayer(id);
      if k < |online| {
        return;
      }
      var record := Player(id, team, now, now, 1, 1);
      var i := FindPlayer(id);
      if i < |all| {
        record := record.(tribe := all[i].tribe, start := all[i].start, level := all[i].level, flag := all[i].flag);
        all := all[i := all[i].(lastLogin := now)];
      }
      online := online + [OnlinePlayer(record, now)];
    }

    method HandleNewPlayer(id: Id, team: Tribe, now: int, memberOf: seq<string>)
      requires Valid(View())
      modifies this`all, this`online, this`groups
      ensures View() == Login(old(View()), id, team, now, memberOf)
      ensures Valid(View())
    {
      hide Valid, Touch, OnlineRecord;
      LoginValid(View(), id, team, now, memberOf);
      AddNewPlayer(id, team, now);
      AddOnlinePlayer(id, team, now);
      groups := groups[id := memberOf];
    }

    method RemovePlayer(id: Id)
      requires UniqueOnline(online)
      modifies this`online
      ensures online == Removed(old(online), id)
    {
      var k := FindOnlinePlayer(id);
      if k < |online| {
        ErasedDistinct(online, k);
        online := EraseRemove(online, k);
      }
    }

    method HandleLogout(id: Id)
      requires Valid(View())
      modifies this`online, this`groups
      ensures View() == Logout(old(View()), id)
      ensures Valid(View())
    {
      LogoutValid(View(), id);
      RemovePlayer(id);
      groups := groups - {id};
    }

    // ------------------------------------------------------------ the sweep

    /** Inner loop over the full list. */
    method ClearMembers(tribe: Tribe)
      modifies this`all
      ensures |all| == |old(all)|
      ensures forall k :: 0 <= k < |all| ==>
                all[k] == if Member(old(all)[k], Admins(cfg, groups), tribe) then old(all)[k].(flag := 0) else old(all)[k]
    {
      ghost var was := all;
      var i := 0;
      while i < |all|
        invariant i <= |all| == |was|
        invariant forall k :: i <= k < |all| ==> all[k] == was[k]
        invariant forall k :: 0 <= k < i ==>
                    all[k] == if Member(was[k], Admins(cfg, groups), tribe) then was[k].(flag := 0) else was[k]
      {
        if all[i].tribe == tribe {
          if !IsAdmin(cfg, groups, all[i].id) {
            all := all[i := all[i].(flag := 0)];
          }
        }
        i := i + 1;
      }
    }

    /** Inner loop over the online list. */
    method ClearOnlineMembers(id: Id, tribe: Tribe)
      modifies this`online
      ensures |online| == |old(online)|
      ensures forall k :: 0 <= k < |online| ==>
                var o := old(online)[k];
                online[k] == if (o.data.id == id || o.data.tribe == tribe) && o.data.id !in Admins(cfg, groups)
                             then o.(data := o.data.(flag := 0)) else o
    {
      ghost var was := online;
      var i := 0;
      while i < |online|
        invariant i <= |online| == |was|
        invariant forall k :: i <= k < |online| ==> online[k] == was[k]
        invariant forall k :: 0 <= k < i ==>
                    online[k] == if (was[k].data.id == id || was[k].data.tribe == tribe) && was[k].data.id !in Admins(cfg, groups)
                                 then was[k].(data := was[k].data.(flag := 0)) else was[k]
      {
        if online[i].data.id == id || online[i].data.tribe == tribe {
          if !IsAdmin(cfg, groups, online[i].data.id) {
            online := online[i := online[i].(data := online[i].data.(flag := 0))];
          }
        }
        i := i + 1;
      }
    }

    /** One acting round: the record, its tribe, and the online records of either. */
    method TakeProtection(i: nat)
      requires i < |all| && !IsAdmin(cfg, groups, all[i].id)
      requires forall k :: 0 <= k < |online| && online[k].data.id == all[i].id ==> online[k].data.tribe == all[i].tribe
      modifies this`all, this`online
      ensures |all| == |old(all)| && |online| == |old(online)|
      ensures forall k :: 0 <= k < |all| ==>
                all[k] == Cleared(old(all)[k], Admins(cfg, groups), {old(all)[i].tribe})
      ensures forall k :: 0 <= k < |online| ==>
                online[k] == old(online)[k].(data := Cleared(old(online)[k].data, Admins(cfg, groups), {old(all)[i].tribe}))
    {
      all := all[i := all[i].(flag := 0)];
      var id, tribe := all[i].id, all[i].tribe;
      ClearMembers(tribe);
      ClearOnlineMembers(id, tribe);
    }

    /** The body of the outer loop. It tests the flags as the earlier rounds left them. */
    method SweepRound(i: nat, now: int, ghost was: seq<Player>, ghost wasOnline: seq<OnlinePlayer>,
                      ghost spent: set<Tribe>) returns (ghost more: set<Tribe>)
      requires Mirror(was, wasOnline) && i < |was|
      requires SweptSoFar(was, wasOnline, LimitsOf(View(), now), i, spent, all, online)
      modifies this`all, this`online
      ensures |all| == |was|
      ensures SweptSoFar(was, wasOnline, LimitsOf(View(), now), i + 1, more, all, online)
    {
      hide IsAdmin, Mirror, SpentSet, Due;
      TribeOfId(was, wasOnline, i);
      SpentRound(was, LimitsOf(View(), now), i, spent);
      more := spent;
      if Due(all[i].start, now - cfg.hours * TICKS_PER_HOUR) || all[i].level >= cfg.maxLevel || all[i].flag == 0 {
        if !IsAdmin(cfg, groups, all[i].id) {
          TakeProtection(i);
          more := spent + {was[i].tribe};
        }
      }
    }

    /** The single nested pass computes the closure over tribes of the flags at its start. */
    method RemoveExpiredTribesProtection(now: int)
      requires Valid(View())
      modifies this`all, this`online
      ensures View() == Swept(old(View()), now)
      ensures Valid(View())
    {
      hide IsAdmin, Valid, Mirror, SweptSoFar, SweepAll, SweepOnline;
      SweptStart(View(), now);
      SweptValid(View(), now);
      ghost var was, wasOnline := all, online;
      ghost var spent: set<Tribe> := {};
      ghost var lim := LimitsOf(View(), now);
      var i := 0;
      while i < |all|
        invariant i <= |all| == |was|
        invariant SweptSoFar(was, wasOnline, lim, i, spent, all, online)
      {
        spent := SweepRound(i, now, was, wasOnline, spent);
        i := i + 1;
      }
      SweptByCleared(was, wasOnline, lim, spent, all, online);
    }

    // ------------------------------------------------------------ the timer

    method UpdateLevelAndTribe(j: nat, sights: map<Id, Sight>)
      requires j < |online|
      modifies this`all, this`online
      ensures var id := old(online)[j].data.id;
              && online == old(online)[j := old(online)[j].(data := RefreshPlayer(old(online)[j].data, {id}, sights))]
              && |all| == |old(all)|
              && (UniqueIds(old(all)) ==> all == RefreshAll(old(all), {id}, sights))
      ensures var before, after := old(online)[j].data, online[j].data;
              if before.id in sights then after.tribe == sights[before.id].tribe && after.level == sights[before.id].level else after == before
    {
      var id := online[j].data.id;
      if id !in sights {
        return;
      }
      var tribe, level := sights[id].tribe, sights[id].level;
      online := online[j := online[j].(data := online[j].data.(level := level, tribe := tribe))];
      var i := FindPlayer(id);
      if i < |all| {
        all := all[i := all[i].(level := level, tribe := tribe)];
      }
    }

    /** The body of the loop over the online players. */
    method RefreshOne(j: nat, sights: map<Id, Sight>, current: Groups, ghost s: State)
      requires j < |s.online| && UniqueIds(s.all) && s.groups.Keys == OnlineIds(s.online)
      requires RefreshedSoFar(s, j, sights, current, all, online, groups)
      modifies this`all, this`online, this`groups
      ensures |online| == |s.online|
      ensures RefreshedSoFar(s, j + 1, sights, current, all, online, groups)
    {
      hide RefreshedSoFar, UniqueIds, RefreshAll, RefreshGroups, OnlineIds;
      RefreshRound(s, j, sights, current, all, online, groups);
      UpdateLevelAndTribe(j, sights);
      var id := online[j].data.id;
      if id in groups {
        groups := groups[id := GroupsOf(current, id)];
      }
    }

    method RefreshPlayers(sights: map<Id, Sight>, current: Groups)
      requires Valid(View())
      modifies this`all, this`online, this`groups
      ensures View() == Refresh(old(View()), sights, current)
    {
      hide IsAdmin, Valid, UniqueIds, RefreshedSoFar, RefreshAll, RefreshOnline, RefreshGroups;
      ghost var s := View();
      RefreshStart(s, sights, current);
      var j := 0;
      while j < |online|
        invariant j <= |online| == |s.online|
        invariant RefreshedSoFar(s, j, sights, current, all, online, groups)
      {
        RefreshOne(j, sights, current, s);
        j := j + 1;
      }
      RefreshDone(s, sights, current, all, online, groups);
    }

    method UpdateTimer(now: int, sights: map<Id, Sight>, current: Groups)
      requires Valid(View())
      modifies this`all, this`online, this`groups, this`nextUpdate
      ensures View() == Tick(old(View()), now, sights, current)
      ensures Valid(View())
    {
      if !Due(nextUpdate, now) {
        return;
      }
      nextUpdate := now + interval * TICKS_PER_MINUTE;
      RefreshValid(View(), sights, current);
      RefreshPlayers(sights, current);
      RemoveExpiredTribesProtection(now);
    }

    /** `true` when a message may be sent, which also starts the next interval. */
    method IsNextMessageReady(id: Id, now: int) returns (ready: bool)
      requires Valid(View())
      modifies this`online
      ensures ready == MessageReady(old(online), id, now)
      ensures View() == Notify(old(View()), id, now)
      ensures Valid(View())
    {
      hide Valid;
      NotifyValid(View(), id, now);
      var k := FindOnlinePlayer(id);
      if k == |online| {
        return true;
      }
      if Due(online[k].nextMessage, now) {
        online := online[k := online[k].(nextMessage := now + cfg.messageInterval * TICKS_PER_SECOND)];
        return true;
      }
      return false;
    }

    // ------------------------------------------------------------ commands

    /** The two loops shared by Disable and RemoveProtection; admins are not spared. */
    method ClearWholeTribe(tribe: Tribe)
      modifies this`all, this`online
      ensures View() == ClearTribe(old(View()), tribe)
    {
      ghost var was, wasOnline := all, online;
      var i := 0;
      while i < |all|
        invariant i <= |all| == |was|
        invariant forall k :: i <= k < |all| ==> all[k] == was[k]
        invariant forall k :: 0 <= k < i ==> all[k] == ClearAll(was, tribe)[k]
        invariant online == wasOnline
      {
        if all[i].tribe == tribe {
          all := all[i := all[i].(flag := 0)];
        }
        i := i + 1;
      }
      i := 0;
      while i < |online|
        invariant i <= |online| == |wasOnline|
        invariant forall k :: i <= k < |online| ==> online[k] == wasOnline[k]
        invariant forall k :: 0 <= k < i ==> online[k] == ClearOnline(wasOnline, tribe)[k]
        invariant all == ClearAll(was, tribe)
      {
        if online[i].data.tribe == tribe {
          online := online[i := online[i].(data := online[i].data.(flag := 0))];
        }
        i := i + 1;
      }
      assert online == ClearOnline(wasOnline, tribe);
    }

    method DisableProtection(id: Id, team: Tribe, alive: bool, leader: bool)
      requires Valid(View())
      modifies this`all, this`online
      ensures View() == Disable(old(View()), id, team, alive, leader)
      ensures Valid(View())
    {
      hide IsAdmin, Valid, ClearTribe, PlayerProtected;
      ClearValid(View(), team);
      if !alive || !cfg.allowDisable {
        return;
      }
      var pve := IsPveTribe(team);
      if !pve {
        var isProtected := IsPlayerProtected(id);
        if isProtected && leader {
          ClearWholeTribe(team);
        }
      }
    }

    method RemoveTribeProtection(tribe: Tribe) returns (found: bool, isProtected: bool)
      requires Valid(View())
      modifies this`all, this`online
      ensures View() == RemoveProtection(old(View()), tribe)
      ensures Valid(View())
      ensures found <==> exists i :: 0 <= i < |old(all)| && old(all)[i].tribe == tribe
      ensures isProtected <==> exists i :: 0 <= i < |old(all)| && old(all)[i].tribe == tribe && old(all)[i].flag == 1
    {
      hide IsAdmin, Valid, ClearTribe;
      ClearValid(View(), tribe);
      found, isProtected := false, false;
      var i := 0;
      while i < |all|
        invariant i <= |all|
        invariant found <==> exists k :: 0 <= k < i && all[k].tribe == tribe
        invariant !isProtected
        invariant forall k :: 0 <= k < i && all[k].tribe == tribe ==> all[k].flag != 1
      {
        if all[i].tribe == tribe {
          found := true;
          if all[i].flag == 1 {
            isProtected := true;
            break;
          }
        }
        i := i + 1;
      }
      if found {
        if isProtected {
          ClearWholeTribe(tribe);
        }
      }
    }

    /** The search of ResetProtection and AddProtection: it stops at the first non-admin at
        the level limit. */
    method CanGrant(tribe: Tribe) returns (found: bool, underMaxLevel: bool)
      ensures found && underMaxLevel <==> Eligible(View(), tribe)
      ensures found && underMaxLevel <==>
              && (exists i :: 0 <= i < |all| && all[i].tribe == tribe && !IsAdmin(cfg, groups, all[i].id))
              && (forall i :: 0 <= i < |all| && all[i].tribe == tribe && !IsAdmin(cfg, groups, all[i].id) ==>
                    all[i].level < cfg.maxLevel)
    {
      hide IsAdmin;
      found, underMaxLevel := false, true;
      ghost var admins := AdminsOf(View());
      var i := 0;
      while i < |all|
        invariant i <= |all|
        invariant underMaxLevel
        invariant found <==> exists k :: 0 <= k < i && Member(all[k], admins, tribe)
        invariant forall k :: 0 <= k < i && Member(all[k], admins, tribe) ==> all[k].level < cfg.maxLevel
      {
        if all[i].tribe == tribe {
          if !IsAdmin(cfg, groups, all[i].id) {
            assert Member(all[i], admins, tribe);
            found := true;
            if all[i].level >= cfg.maxLevel {
              underMaxLevel := false;
              break;
            }
          }
        }
        i := i + 1;
      }
    }

    /** First loop of AddProtection: `last` is the running `now` that the shift has moved. */
    method GrantPlayers(tribe: Tribe, now: int, delta: int) returns (last: int)
      modifies this`all
      ensures all == GrantAll(old(all), Admins(cfg, groups), tribe, now, delta)
      ensures last == now + CountMembers(old(all), Admins(cfg, groups), tribe) * delta
    {
      hide IsAdmin;
      ghost var was, admins := all, Admins(cfg, groups);
      last := now;
      var i := 0;
      while i < |all|
        invariant i <= |all| == |was|
        invariant last == now + CountMembers(was[..i], admins, tribe) * delta
        invariant forall k :: i <= k < |all| ==> all[k] == was[k]
        invariant forall k :: 0 <= k < i ==> all[k] == GrantAll(was, admins, tribe, now, delta)[k]
      {
        CountOneMore(was, i, admins, tribe, delta);
        if !IsAdmin(cfg, groups, all[i].id) {
          if all[i].tribe == tribe {
            last := last + delta;
            all := all[i := all[i].(flag := 1, start := last)];
          }
        }
        i := i + 1;
      }
      assert was[..i] == was;
      assert all == GrantAll(was, admins, tribe, now, delta);
    }

    /** Second loop, going on from where the first one left the running time. */
    method GrantOnlinePlayers(tribe: Tribe, now: int, delta: int)
      modifies this`online
      ensures online == GrantOnline(old(online), Admins(cfg, groups), tribe, now, delta)
    {
      hide IsAdmin;
      ghost var was, admins, data := online, Admins(cfg, groups), Data(online);
      var last := now;
      var i := 0;
      while i < |online|
        invariant i <= |online| == |was|
        invariant last == now + CountMembers(data[..i], admins, tribe) * delta
        invariant forall k :: i <= k < |online| ==> online[k] == was[k]
        invariant forall k :: 0 <= k < i ==> online[k] == was[k].(data := GrantAll(data, admins, tribe, now, delta)[k])
      {
        CountOneMore(data, i, admins, tribe, delta);
        if !IsAdmin(cfg, groups, online[i].data.id) {
          if online[i].data.tribe == tribe {
            last := last + delta;
            online := online[i := online[i].(data := online[i].data.(flag := 1, start := last))];
          }
        }
        i := i + 1;
      }
      assert online == GrantOnline(was, admins, tribe, now, delta);
    }

    method ResetTribeProtection(tribe: Tribe, now: int)
      requires Valid(View())
      modifies this`all, this`online
      ensures View() == ResetProtection(old(View()), tribe, now)
      ensures Valid(View())
    {
      hide IsAdmin, Valid, Eligible, GrantAll, GrantOnline;
      GrantValid(View(), tribe, now, 0);
      var found, underMaxLevel := CanGrant(tribe);
      if found && underMaxLevel {
        var _ := GrantPlayers(tribe, now, 0);
        GrantOnlinePlayers(tribe, now, 0);
      }
    }

    method AddTribeProtection(tribe: Tribe, hours: nat, now: int)
      requires Valid(View())
      modifies this`all, this`online
      ensures View() == AddProtection(old(View()), tribe, hours, now)
      ensures Valid(View())
    {
      hide IsAdmin, Valid, Eligible, GrantAll, GrantOnline;
      var delta := HoursDelta(hours, cfg.hours) * TICKS_PER_HOUR;
      GrantValid(View(), tribe, now, delta);
      var found, underMaxLevel := CanGrant(tribe);
      if found && underMaxLevel {
        var last := GrantPlayers(tribe, now, delta);
        GrantOnlinePlayers(tribe, last, delta);
      }
    }

    /** Raise every flag, then sweep. */
    method ResetPlayerProtection(now: int)
      requires Valid(View())
      modifies this`all, this`online
      ensures View() == Swept(old(View()).(all := RaiseAll(old(all)), online := RaiseOnline(old(online))), now)
      ensures Valid(View())
    {
      hide IsAdmin, Valid, Swept;
      RaiseValid(View());
      ghost var was, wasOnline := all, online;
      var i := 0;
      while i < |all|
        invariant i <= |all| == |was|
        invariant forall k :: i <= k < |all| ==> all[k] == was[k]
        invariant forall k :: 0 <= k < i ==> all[k] == was[k].(flag := 1)
        invariant online == wasOnline
      {
        all := all[i := all[i].(flag := 1)];
        i := i + 1;
      }
      i := 0;
      while i < |online|
        invariant i <= |online| == |wasOnline|
        invariant forall k :: i <= k < |online| ==> online[k] == wasOnline[k]
        invariant forall k :: 0 <= k < i ==> online[k] == wasOnline[k].(data := wasOnline[k].data.(flag := 1))
        invariant all == RaiseAll(was)
      {
        online := online[i := online[i].(data := online[i].data.(flag := 1))];
        i := i + 1;
      }
      assert online == RaiseOnline(wasOnline);
      RemoveExpiredTribesProtection(now);
    }

    method ReloadConfig(config: Option<Config>, now: int)
      requires Valid(View())
      modifies this`cfg, this`nextUpdate, this`all, this`online
      ensures View() == Reload(old(View()), config, now)
      ensures Valid(View())
    {
      hide IsAdmin, Mirror, Swept;
      if config.Some? {
        cfg := config.value;
        nextUpdate := now;
      }
      ResetPlayerProtection(now);
    }

    // ------------------------------------------------------------ PVE tribes

    /** `erase(remove(...))` of the element that `find_if` finds. */
    method EraseTribe(v: seq<Tribe>, tribe: Tribe) returns (r: seq<Tribe>)
      ensures r == Erased(v, tribe)
    {
      r := v;
      if tribe in v {
        var k := 0;
        while v[k] != tribe
          invariant k < |v| && tribe in v[k..]
          invariant forall i :: 0 <= i < k ==> v[i] != tribe
          decreases |v| - k
        {
          assert v[k..] == [v[k]] + v[k + 1..];
          k := k + 1;
        }
        r := EraseRemove(v, k);
      }
    }

    /** Console and RCON SetPVE. */
    method SetPveTribe(tribe: Tribe, on: bool, rcon: bool)
      requires Valid(View())
      modifies this`listed, this`removed
      ensures View() == SetTribePve(old(View()), tribe, on, rcon)
      ensures Valid(View())
    {
      hide IsAdmin, Mirror, Consistent, Erased;
      SetRefines(PveView(), tribe, on, HasMember(all, Admins(cfg, groups), tribe), rcon);
      ghost var admins := AdminsOf(View());
      var found := false;
      var i := 0;
      while i < |all|
        invariant i <= |all|
        invariant found <==> exists k :: 0 <= k < i && Member(all[k], admins, tribe)
      {
        if all[i].tribe == tribe {
          if !IsAdmin(cfg, groups, all[i].id) {
            assert Member(all[i], admins, tribe);
            found := true;
          }
        }
        i := i + 1;
      }
      if found || (rcon && (tribe in listed || tribe in removed)) {
        if on {
          if tribe !in listed {
            listed := listed + [tribe];
            removed := EraseTribe(removed, tribe);
          }
        } else {
          if tribe !in removed {
            removed := removed + [tribe];
            listed := EraseTribe(listed, tribe);
          }
        }
      }
    }

    /** Only the tribe's own row changes. For a removal both lists are thrown away, and what is
        PVE afterwards is what the other rows say. */
    method UpdatePveTribe(tribe: Tribe, stillProtected: bool)
      modifies this`listed, this`removed, this`table
      ensures tribe in table && (table[tribe] <==> stillProtected)
      ensures table.Keys == old(table).Keys + {tribe}
      ensures forall t :: t in old(table) && t != tribe ==> table[t] == old(table)[t]
      ensures stillProtected ==> listed == old(listed) && removed == old(removed)
      ensures !stillProtected ==> removed == [] && listed == Select(table)
      ensures !stillProtected ==>
                forall t :: IsPve(PveView(), t) <==> t != tribe && t in Protected(old(table))
    {
      table := table[tribe := stillProtected];
      if !stillProtected {
        removed := [];
        listed := Select(table);
        assert forall t :: t in listed <==> t in Elements(listed);
      }
    }

    method SaveListed()
      modifies this`listed, this`removed, this`table
      ensures listed == old(listed) && removed == old(removed)
      ensures table == old(table) + Marked(listed, true)
    {
      hide Select, Marked;
      ghost var p := PveView();
      MarkedNone(table, listed, true);
      var i := 0;
      while i < |listed|
        invariant i <= |listed| && listed == p.listed && removed == p.removed
        invariant table == p.table + Marked(listed[..i], true)
      {
        MarkedOneMore(p.table, listed, i, true);
        ghost var was := table;
        UpdatePveTribe(listed[i], true);
        assert table == was[listed[i] := true];
        i := i + 1;
      }
      assert listed[..i] == listed;
    }

    /** Walks the removed list as it was when the loop began, although every round clears it. */
    method SaveRemoved()
      modifies this`listed, this`removed, this`table
      ensures table == old(table) + Marked(old(removed), false)
      ensures removed == []
      ensures listed == if old(removed) == [] then old(listed) else Select(table)
    {
      hide Select, Marked;
      ghost var p := PveView();
      var gone := removed;
      MarkedNone(table, gone, false);
      var i := 0;
      while i < |gone|
        invariant i <= |gone|
        invariant table == p.table + Marked(gone[..i], false)
        invariant i == 0 ==> listed == p.listed && removed == gone
        invariant i > 0 ==> listed == Select(table) && removed == []
      {
        MarkedOneMore(p.table, gone, i, false);
        ghost var was := table;
        UpdatePveTribe(gone[i], false);
        assert table == was[gone[i] := false];
        i := i + 1;
      }
      assert gone[..i] == gone;
    }

    /** The two loops of `SaveWorld` over the lists. */
    method SavePve()
      modifies this`listed, this`removed, this`table
      ensures PveView() == Save(old(PveView()))
    {
      SaveListed();
      SaveRemoved();
    }

    // ------------------------------------------------------------ save, restart

    /** INSERT OR REPLACE of every record. */
    method SavePlayers()
      requires UniqueIds(all)
      modifies this`rows
      ensures rows == old(rows) + Stored(all)
    {
      hide Stored, UniqueIds;
      StoredNothing(all);
      var i := 0;
      while i < |all|
        invariant i <= |all|
        invariant rows == old(rows) + Stored(all[..i])
      {
        StoredOneMore(all, i);
        rows := rows[all[i].id := Persist(all[i])];
        i := i + 1;
      }
      assert all[..i] == all;
    }

    method SaveTheWorld()
      requires Valid(View())
      modifies this`rows, this`listed, this`removed, this`table
      ensures View() == SaveWorld(old(View()))
      ensures Valid(View())
    {
      hide IsAdmin, Consistent, Save, Stored, RowsValid;
      SaveValid(View());
      SavePlayers();
      SavePve();
    }

    method AddPlayerFromDB(p: Player)
      modifies this`all
      ensures all == if Known(old(all), p.id) then old(all) else old(all) + [p]
    {
      var k := FindPlayer(p.id);
      if k == |all| {
        all := all + [p];
      }
    }

    /** The player half of `LoadDB`; rows come in the order of the primary key. */
    method LoadPlayers(kept: set<Id>)
      requires all == [] && RowsValid(rows)
      modifies this`all
      ensures all == Load(rows, kept)
    {
      hide Load;
      var ids := Ascending(rows.Keys * kept);
      ghost var loaded := Load(rows, kept);
      LoadedIds(rows, kept);
      var i := 0;
      while i < |ids|
        invariant i <= |ids| && all == loaded[..i]
      {
        assert !Known(all, ids[i]);
        AddPlayerFromDB(rows[ids[i]]);
        i := i + 1;
      }
    }

    /** A new process: everything in memory is gone, `InitConfig` fills the lists again. */
    method RestartServer(config: Config, kept: set<Id>, now: int)
      requires Valid(View())
      modifies this
      ensures View() == Reboot(old(View()), config, kept, now)
      ensures Valid(View())
    {
      hide Valid, Load, Select;
      ghost var s := View();
      RebootValid(s, config, kept, now);
      RowsOfValid(s);
      cfg, nextUpdate, interval := config, now, config.updateInterval;
      all, online, groups, listed, removed := [], [], map[], [], [];
      LoadPlayers(kept);
      listed := Select(table);
    }
  }

  // -------------------------------------------------------------- facts about the loops

  lemma {:induction false} RowsOfValid(s: State)
    requires Valid(s)
    ensures RowsValid(s.rows)
  {
  }

  /** A record after the tribes in `spent` have lost protection. */
  function Cleared(p: Player, admins: set<Id>, spent: set<Tribe>): Player {
    if p.id !in admins && p.tribe in spent then p.(flag := 0) else p
  }

  /** `spent` holds the tribes that the first `i` records take protection from. */
  predicate SpentSet(all: seq<Player>, lim: Limits, i: nat, spent: set<Tribe>)
    requires i <= |all|
  {
    && (forall j :: 0 <= j < i && all[j].id !in lim.admins && Spent(all[j], lim) ==> all[j].tribe in spent)
    && (forall tribe :: tribe in spent ==> TribeSpent(all, lim, tribe))
  }

  /** One round: an acting record adds its tribe, which is spent by the record itself or was
      spent before; any other record adds nothing. */
  lemma {:induction false} SpentRound(all: seq<Player>, lim: Limits, i: nat, spent: set<Tribe>)
    requires i < |all| && SpentSet(all, lim, i, spent)
    ensures var now := Cleared(all[i], lim.admins, spent);
            SpentSet(all, lim, i + 1,
                     if now.id !in lim.admins && Spent(now, lim) then spent + {now.tribe} else spent)
  {
  }

  /** What the first `i` rounds of a sweep have done to the lists. */
  predicate SweptSoFar(was: seq<Player>, wasOnline: seq<OnlinePlayer>, lim: Limits, i: nat, spent: set<Tribe>,
                       all: seq<Player>, online: seq<OnlinePlayer>)
    requires i <= |was|
  {
    && |all| == |was| && |online| == |wasOnline|
    && SpentSet(was, lim, i, spent)
    && (forall k :: 0 <= k < |all| ==> all[k] == Cleared(was[k], lim.admins, spent))
    && (forall k :: 0 <= k < |online| ==>
          online[k] == wasOnline[k].(data := Cleared(wasOnline[k].data, lim.admins, spent)))
  }

  lemma {:induction false} SweptStart(s: State, now: int)
    requires Valid(s)
    ensures Mirror(s.all, s.online)
    ensures SweptSoFar(s.all, s.online, LimitsOf(s, now), 0, {}, s.all, s.online)
  {
  }

  lemma {:induction false} SweptByCleared(was: seq<Player>, wasOnline: seq<OnlinePlayer>, lim: Limits, spent: set<Tribe>,
                                          all: seq<Player>, online: seq<OnlinePlayer>)
    requires SweptSoFar(was, wasOnline, lim, |was|, spent, all, online)
    ensures all == SweepAll(was, lim) && online == SweepOnline(was, wasOnline, lim)
  {
  }

  /** With the mirror, an online record of the same id is of the same tribe. */
  lemma {:induction false} TribeOfId(all: seq<Player>, online: seq<OnlinePlayer>, i: nat)
    requires Mirror(all, online) && i < |all|
    ensures forall k :: 0 <= k < |online| && online[k].data.id == all[i].id ==> online[k].data.tribe == all[i].tribe
  {
  }

  /** What refreshing the first `j` online players has done. */
  predicate RefreshedSoFar(s: State, j: nat, sights: map<Id, Sight>, current: Groups,
                           all: seq<Player>, online: seq<OnlinePlayer>, groups: Groups)
    requires j <= |s.online|
  {
    var ids := OnlineIds(s.online[..j]);
    && |online| == |s.online|
    && all == RefreshAll(s.all, ids, sights)
    && groups == RefreshGroups(s.groups, ids, current)
    && (forall k :: 0 <= k < j ==> online[k] == RefreshOnline(s.online, OnlineIds(s.online), sights)[k])
    && (forall k :: j <= k < |online| ==> online[k] == s.online[k])
  }

  lemma {:induction false} RefreshAllMore(all: seq<Player>, ids: set<Id>, id: Id, sights: map<Id, Sight>)
    ensures RefreshAll(RefreshAll(all, ids, sights), {id}, sights) == RefreshAll(all, ids + {id}, sights)
    ensures UniqueIds(all) ==> UniqueIds(RefreshAll(all, ids, sights))
  {
  }

  lemma {:induction false} RefreshGroupsMore(cached: Groups, ids: set<Id>, id: Id, current: Groups)
    requires id in cached
    ensures RefreshGroups(cached, ids, current)[id := GroupsOf(current, id)] == RefreshGroups(cached, ids + {id}, current)
    ensures id in RefreshGroups(cached, ids, current)
  {
  }

  lemma {:induction false} RefreshRound(s: State, j: nat, sights: map<Id, Sight>, current: Groups,
                                        all: seq<Player>, online: seq<OnlinePlayer>, groups: Groups)
    requires j < |s.online| && UniqueIds(s.all) && s.groups.Keys == OnlineIds(s.online)
    requires RefreshedSoFar(s, j, sights, current, all, online, groups)
    ensures var id := s.online[j].data.id;
            && |online| == |s.online| && online[j].data.id == id && id in groups && UniqueIds(all)
            && RefreshedSoFar(s, j + 1, sights, current,
                              RefreshAll(all, {id}, sights),
                              online[j := online[j].(data := RefreshPlayer(online[j].data, {id}, sights))],
                              groups[id := GroupsOf(current, id)])
  {
    hide RefreshAll, RefreshGroups;
    var id := s.online[j].data.id;
    PrefixIds(s.online, j);
    RefreshAllMore(s.all, OnlineIds(s.online[..j]), id, sights);
    RefreshGroupsMore(s.groups, OnlineIds(s.online[..j]), id, current);
  }

  lemma {:induction false} RefreshStart(s: State, sights: map<Id, Sight>, current: Groups)
    requires Valid(s)
    ensures UniqueIds(s.all) && s.groups.Keys == OnlineIds(s.online)
    ensures RefreshedSoFar(s, 0, sights, current, s.all, s.online, s.groups)
  {
  }

  lemma {:induction false} RefreshDone(s: State, sights: map<Id, Sight>, current: Groups,
                                       all: seq<Player>, online: seq<OnlinePlayer>, groups: Groups)
    requires RefreshedSoFar(s, |s.online|, sights, current, all, online, groups)
    ensures s.(all := all, online := online, groups := groups) == Refresh(s, sights, current)
  {
  }

  lemma {:induction false} CountOneMore(all: seq<Player>, i: nat, admins: set<Id>, tribe: Tribe, delta: int)
    requires i < |all|
    ensures CountMembers(all[..i + 1], admins, tribe) * delta ==
            CountMembers(all[..i], admins, tribe) * delta + (if Member(all[i], admins, tribe) then delta else 0)
  {
    assert all[..i + 1][..i] == all[..i];
  }

  lemma {:induction false} MarkedNone(table: map<Tribe, bool>, v: seq<Tribe>, value: bool)
    ensures table + Marked(v[..0], value) == table
  {
  }

  lemma {:induction false} MarkedOneMore(table: map<Tribe, bool>, v: seq<Tribe>, i: nat, value: bool)
    requires i < |v|
    ensures table + Marked(v[..i + 1], value) == (table + Marked(v[..i], value))[v[i] := value]
  {
  }

  lemma {:induction false} StoredNothing(all: seq<Player>)
    ensures Stored(all[..0]) == map[]
  {
  }

  lemma {:induction false} StoredOneMore(all: seq<Player>, i: nat)
    requires i < |all| && UniqueIds(all)
    ensures Stored(all[..i + 1]) == Stored(all[..i])[all[i].id := Persist(all[i])]
  {
    var more, less := all[..i + 1], all[..i];
    assert more == less + [all[i]];
    forall id
      ensures Known(more, id) <==> Known(less, id) || id == all[i].id
    {
      if Known(less, id) {
        assert more[Find(less, id)].id == id;
      }
      assert more[i].id == all[i].id;
    }
    forall id | Known(less, id)
      ensures more[Find(more, id)] == less[Find(less, id)]
    {
      assert more[Find(less, id)].id == id;
    }
    assert Known(more, all[i].id);
    assert Find(more, all[i].id) == i;
  }

  lemma {:induction false} LoadedIds(rows: map<Id, Player>, kept: set<Id>)
    requires RowsValid(rows)
    ensures var ids := Ascending(rows.Keys * kept);
            && |Load(rows, kept)| == |ids|
            && (forall k :: 0 <= k < |ids| ==> ids[k] in rows && Load(rows, kept)[k] == rows[ids[k]])
            && (forall k :: 0 <= k < |ids| ==> Load(rows, kept)[k].id == ids[k])
            && (forall j, k :: 0 <= j < k < |ids| ==> ids[j] < ids[k])
  {
    AscendingIsOrdered(rows.Keys * kept);
    var ids := Ascending(rows.Keys * kept);
    forall k | 0 <= k < |ids|
      ensures ids[k] in rows && Load(rows, kept)[k] == rows[ids[k]]
    {
      assert ids[k] in rows.Keys * kept;
    }
  }

  lemma {:induction false} PrefixIds(online: seq<OnlinePlayer>, j: nat)
    requires j < |online|
    ensures OnlineIds(online[..j + 1]) == OnlineIds(online[..j]) + {online[j].data.id}
    ensures online[j].data.id in OnlineIds(online)
  {
  }
}
