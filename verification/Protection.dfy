/** The protection state machine: what each hook, timer tick and command does to the two
    player lists, the cache of permission groups, the PVE lists and the tables. Each step is
    a function of the whole state; the class in Plugin.dfy computes it with loops. */
module Protection {
  import opened Options
  import opened Time
  import opened Players
  import opened Sweep
  import opened PveTribes

  datatype State = State(
    cfg: Config,
    all: seq<Player>,
    online: seq<OnlinePlayer>,
    groups: Groups,
    pve: Pve,
    nextUpdate: int,
    interval: int,
    rows: map<Id, Player>)

  /** What the game reports about a living player. */
  datatype Sight = Sight(tribe: Tribe, level: int)

  function AdminsOf(s: State): set<Id> {
    Admins(s.cfg, s.groups)
  }

  function LimitsOf(s: State, now: int): Limits {
    Limits(AdminsOf(s), s.cfg.maxLevel, s.cfg.hours, now)
  }

  // ---------------------------------------------------------------- scans

  function FindFrom(all: seq<Player>, id: Id, from: nat): (k: nat)
    requires from <= |all|
    ensures from <= k <= |all|
    ensures forall i :: from <= i < k ==> all[i].id != id
    ensures k < |all| ==> all[k].id == id
    decreases |all| - from
  {
    if from == |all| || all[from].id == id then from else FindFrom(all, id, from + 1)
  }

  function Find(all: seq<Player>, id: Id): (k: nat)
    requires Known(all, id)
    ensures k < |all| && all[k].id == id && forall i :: 0 <= i < k ==> all[i].id != id
  {
    FindFrom(all, id, 0)
  }

  function FindOnlineFrom(online: seq<OnlinePlayer>, id: Id, from: nat): (k: nat)
    requires from <= |online|
    ensures from <= k <= |online|
    ensures forall i :: from <= i < k ==> online[i].data.id != id
    ensures k < |online| ==> online[k].data.id == id
    decreases |online| - from
  {
    if from == |online| || online[from].data.id == id then from else FindOnlineFrom(online, id, from + 1)
  }

  function FindOnline(online: seq<OnlinePlayer>, id: Id): (k: nat)
    requires IsOnline(online, id)
    ensures k < |online| && online[k].data.id == id && forall i :: 0 <= i < k ==> online[i].data.id != id
  {
    FindOnlineFrom(online, id, 0)
  }

  /** `IsPlayerProtected`. */
  predicate PlayerProtected(s: State, id: Id) {
    && id !in AdminsOf(s)
    && IsOnline(s.online, id)
    && s.online[FindOnline(s.online, id)].data.flag != 0
  }

  const LOWEST_TRIBE: int := 100_000

  /** `IsTribeProtected`: some non-admin record of the tribe is flagged. */
  predicate TribeProtected(s: State, tribe: Tribe) {
    && tribe > LOWEST_TRIBE
    && (IsPve(s.pve, tribe)
        || exists i :: 0 <= i < |s.all| && Member(s.all[i], AdminsOf(s), tribe) && s.all[i].flag == 1)
  }

  // ---------------------------------------------------------------- login, logout

  function AddNew(all: seq<Player>, id: Id, team: Tribe, now: int): seq<Player> {
    if Known(all, id) then all else all + [Player(id, team, now, now, 1, 1)]
  }

  function Touch(all: seq<Player>, id: Id, now: int): (r: seq<Player>)
    ensures |r| == |all|
  {
    if Known(all, id) then var k := Find(all, id); all[k := all[k].(lastLogin := now)] else all
  }

  function OnlineRecord(all: seq<Player>, id: Id, team: Tribe, now: int): Player {
    if Known(all, id) then all[Find(all, id)].(lastLogin := now) else Player(id, team, now, now, 1, 1)
  }

  function Login(s: State, id: Id, team: Tribe, now: int, groups: seq<string>): State {
    var all := AddNew(s.all, id, team, now);
    var cached := s.groups[id := groups];
    if IsOnline(s.online, id) then s.(all := all, groups := cached)
    else
      s.(all := Touch(all, id, now),
         online := s.online + [OnlinePlayer(OnlineRecord(all, id, team, now), now)],
         groups := cached)
  }

  function Removed(online: seq<OnlinePlayer>, id: Id): seq<OnlinePlayer> {
    if IsOnline(online, id) then
      var k := FindOnline(online, id);
      online[..k] + online[k + 1..]
    else online
  }

  function Logout(s: State, id: Id): State {
    s.(online := Removed(s.online, id), groups := s.groups - {id})
  }

  // ---------------------------------------------------------------- timer tick

  function RefreshPlayer(p: Player, ids: set<Id>, sights: map<Id, Sight>): Player {
    if p.id in ids && p.id in sights then p.(tribe := sights[p.id].tribe, level := sights[p.id].level) else p
  }

  function RefreshAll(all: seq<Player>, ids: set<Id>, sights: map<Id, Sight>): (r: seq<Player>)
    ensures |r| == |all|
  {
    seq(|all|, i requires 0 <= i < |all| => RefreshPlayer(all[i], ids, sights))
  }

  function RefreshOnline(online: seq<OnlinePlayer>, ids: set<Id>, sights: map<Id, Sight>): (r: seq<OnlinePlayer>)
    ensures |r| == |online|
  {
    seq(|online|, i requires 0 <= i < |online| => online[i].(data := RefreshPlayer(online[i].data, ids, sights)))
  }

  /** `Permissions::GetPlayerGroups`: no groups for an unknown player. */
  function GroupsOf(current: Groups, id: Id): seq<string> {
    if id in current then current[id] else []
  }

  function RefreshGroups(cached: Groups, ids: set<Id>, current: Groups): Groups {
    map id | id in cached :: if id in ids then GroupsOf(current, id) else cached[id]
  }

  function Refresh(s: State, sights: map<Id, Sight>, current: Groups): State {
    var ids := OnlineIds(s.online);
    s.(all := RefreshAll(s.all, ids, sights),
       online := RefreshOnline(s.online, ids, sights),
       groups := RefreshGroups(s.groups, ids, current))
  }

  function Swept(s: State, now: int): State {
    var lim := LimitsOf(s, now);
    s.(all := SweepAll(s.all, lim), online := SweepOnline(s.all, s.online, lim))
  }

  function Tick(s: State, now: int, sights: map<Id, Sight>, current: Groups): State {
    if Due(s.nextUpdate, now) then
      Swept(Refresh(s.(nextUpdate := now + s.interval * TICKS_PER_MINUTE), sights, current), now)
    else s
  }

  // ---------------------------------------------------------------- commands

  function ClearAll(all: seq<Player>, tribe: Tribe): (r: seq<Player>)
    ensures |r| == |all|
  {
    seq(|all|, i requires 0 <= i < |all| => if all[i].tribe == tribe then all[i].(flag := 0) else all[i])
  }

  function ClearOnline(online: seq<OnlinePlayer>, tribe: Tribe): (r: seq<OnlinePlayer>)
    ensures |r| == |online|
  {
    seq(|online|, i requires 0 <= i < |online| =>
      if online[i].data.tribe == tribe then online[i].(data := online[i].data.(flag := 0)) else online[i])
  }

  function ClearTribe(s: State, tribe: Tribe): State {
    s.(all := ClearAll(s.all, tribe), online := ClearOnline(s.online, tribe))
  }

  /** `leader`: the player has no tribe or is an admin of it. */
  function Disable(s: State, id: Id, team: Tribe, alive: bool, leader: bool): State {
    if alive && s.cfg.allowDisable && !IsPve(s.pve, team) && PlayerProtected(s, id) && leader
    then ClearTribe(s, team) else s
  }

  function RemoveProtection(s: State, tribe: Tribe): State {
    if exists i :: 0 <= i < |s.all| && s.all[i].tribe == tribe && s.all[i].flag == 1
    then ClearTribe(s, tribe) else s
  }

  predicate HasMember(all: seq<Player>, admins: set<Id>, tribe: Tribe) {
    exists i :: 0 <= i < |all| && Member(all[i], admins, tribe)
  }

  /** The tribe has a non-admin record and none of them is at the level limit. */
  predicate Eligible(s: State, tribe: Tribe) {
    && HasMember(s.all, AdminsOf(s), tribe)
    && forall i :: 0 <= i < |s.all| && Member(s.all[i], AdminsOf(s), tribe) ==> s.all[i].level < s.cfg.maxLevel
  }

  function CountMembers(all: seq<Player>, admins: set<Id>, tribe: Tribe): (n: nat)
    ensures n <= |all|
  {
    if all == [] then 0
    else
      var last := |all| - 1;
      CountMembers(all[..last], admins, tribe) + (if Member(all[last], admins, tribe) then 1 else 0)
  }

  /** Every non-admin record of the tribe is flagged; the `k`-th one starts at
      `now + k * delta`. */
  function GrantAll(all: seq<Player>, admins: set<Id>, tribe: Tribe, now: int, delta: int): (r: seq<Player>)
    ensures |r| == |all|
  {
    seq(|all|, i requires 0 <= i < |all| =>
      if Member(all[i], admins, tribe)
      then all[i].(flag := 1, start := now + CountMembers(all[..i + 1], admins, tribe) * delta)
      else all[i])
  }

  function Data(online: seq<OnlinePlayer>): (r: seq<Player>)
    ensures |r| == |online|
  {
    seq(|online|, i requires 0 <= i < |online| => online[i].data)
  }

  function GrantOnline(online: seq<OnlinePlayer>, admins: set<Id>, tribe: Tribe, now: int, delta: int)
    : (r: seq<OnlinePlayer>)
    ensures |r| == |online|
  {
    seq(|online|, i requires 0 <= i < |online| =>
      online[i].(data := GrantAll(Data(online), admins, tribe, now, delta)[i]))
  }

  /** The accumulating `now += delta` counts on through the online list. */
  function Grant(s: State, tribe: Tribe, now: int, delta: int): State {
    if Eligible(s, tribe) then
      var admins := AdminsOf(s);
      var n := CountMembers(s.all, admins, tribe);
      s.(all := GrantAll(s.all, admins, tribe, now, delta),
         online := GrantOnline(s.online, admins, tribe, now + n * delta, delta))
    else s
  }

  /** `hours(hours - HoursOfProtection)`: unsigned 64-bit subtraction, then a conversion to
      the 32-bit representation of `std::chrono::hours`. */
  function HoursDelta(hours: nat, protection: int): int {
    var low := (hours - protection) % 0x1_0000_0000;
    if low < 0x8000_0000 then low else low - 0x1_0000_0000
  }

  function ResetProtection(s: State, tribe: Tribe, now: int): State {
    Grant(s, tribe, now, 0)
  }

  function AddProtection(s: State, tribe: Tribe, hours: nat, now: int): State {
    Grant(s, tribe, now, HoursDelta(hours, s.cfg.hours) * TICKS_PER_HOUR)
  }

  function SetTribePve(s: State, tribe: Tribe, on: bool, rcon: bool): State {
    s.(pve := SetPve(s.pve, tribe, on, HasMember(s.all, AdminsOf(s), tribe), rcon))
  }

  /** ReloadConfig; `None` when the configuration file cannot be opened. */
  function Reload(s: State, cfg: Option<Config>, now: int): State {
    var loaded := if cfg.Some? then s.(cfg := cfg.value, nextUpdate := now) else s;
    Swept(loaded.(all := RaiseAll(s.all), online := RaiseOnline(s.online)), now)
  }

  // ---------------------------------------------------------------- messages

  /** `IsNextMessageReady` for one player; an unknown player has no throttle. */
  predicate MessageReady(online: seq<OnlinePlayer>, id: Id, now: int) {
    IsOnline(online, id) ==> Due(online[FindOnline(online, id)].nextMessage, now)
  }

  function AskMessage(online: seq<OnlinePlayer>, id: Id, now: int, interval: int): (r: seq<OnlinePlayer>)
    ensures |r| == |online|
  {
    if IsOnline(online, id) && MessageReady(online, id, now) then
      var k := FindOnline(online, id);
      online[k := online[k].(nextMessage := now + interval * TICKS_PER_SECOND)]
    else online
  }

  function Notify(s: State, id: Id, now: int): State {
    s.(online := AskMessage(s.online, id, now, s.cfg.messageInterval))
  }

  // ---------------------------------------------------------------- save, restart

  /** Stored times are truncated to milliseconds (PlayerTable.dfy). */
  function Persist(p: Player): Player {
    p.(start := p.start - p.start % TICKS_PER_MILLISECOND,
       lastLogin := p.lastLogin - p.lastLogin % TICKS_PER_MILLISECOND)
  }

  function Ids(all: seq<Player>): (s: set<Id>)
    ensures forall id :: id in s <==> Known(all, id)
  {
    set i | 0 <= i < |all| :: all[i].id
  }

  function Stored(all: seq<Player>): map<Id, Player> {
    map id | id in Ids(all) :: Persist(all[Find(all, id)])
  }

  function SaveWorld(s: State): State {
    s.(pve := Save(s.pve), rows := s.rows + Stored(s.all))
  }

  /** The rows among `kept`, in the order of the primary key. */
  function Load(rows: map<Id, Player>, kept: set<Id>): seq<Player> {
    var ids := Ascending(rows.Keys * kept);
    AscendingIsOrdered(rows.Keys * kept);
    seq(|ids|, i requires 0 <= i < |ids| => assert ids[i] in rows.Keys * kept; rows[ids[i]])
  }

  /** A new process; `kept` are the players whose last login passes the age filter. */
  function Reboot(s: State, cfg: Config, kept: set<Id>, now: int): State {
    State(cfg, Load(s.rows, kept), [], map[], Restart(s.pve), now, cfg.updateInterval, s.rows)
  }

  // ---------------------------------------------------------------- runs

  datatype Event =
    | LoginEvent(id: Id, team: Tribe, now: int, memberOf: seq<string>)
    | LogoutEvent(id: Id)
    | TickEvent(now: int, sights: map<Id, Sight>, current: Groups)
    | DisableEvent(id: Id, team: Tribe, alive: bool, leader: bool)
    | RemoveEvent(tribe: Tribe)
    | ResetEvent(tribe: Tribe, now: int)
    | AddEvent(tribe: Tribe, hours: nat, now: int)
    | SetPveEvent(tribe: Tribe, on: bool, rcon: bool)
    | ReloadEvent(cfg: Option<Config>, now: int)
    | NotifyEvent(id: Id, now: int)
    | SaveEvent
    | RestartEvent(newCfg: Config, kept: set<Id>, now: int)

  function Next(s: State, e: Event): State {
    match e
    case LoginEvent(id, team, now, memberOf) => Login(s, id, team, now, memberOf)
    case LogoutEvent(id) => Logout(s, id)
    case TickEvent(now, sights, current) => Tick(s, now, sights, current)
    case DisableEvent(id, team, alive, leader) => Disable(s, id, team, alive, leader)
    case RemoveEvent(tribe) => RemoveProtection(s, tribe)
    case ResetEvent(tribe, now) => ResetProtection(s, tribe, now)
    case AddEvent(tribe, hours, now) => AddProtection(s, tribe, hours, now)
    case SetPveEvent(tribe, on, rcon) => SetTribePve(s, tribe, on, rcon)
    case ReloadEvent(cfg, now) => Reload(s, cfg, now)
    case NotifyEvent(id, now) => Notify(s, id, now)
    case SaveEvent => SaveWorld(s)
    case RestartEvent(cfg, kept, now) => Reboot(s, cfg, kept, now)
  }

  function RunAll(s: State, es: seq<Event>): State {
    if es == [] then s else Next(RunAll(s, es[..|es| - 1]), es[|es| - 1])
  }

  /** A first start on empty tables. */
  function Initial(cfg: Config, now: int): State {
    State(cfg, [], [], map[], Pve([], [], map[]), now, cfg.updateInterval, map[])
  }
}
