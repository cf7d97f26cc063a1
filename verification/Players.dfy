/** The records of NewPlayerProtection.h and the read-only scans over them. */
module Players {
  import Names

  type Id = nat
  type Tribe = nat

  /** `AllPlayerData`; `flag` is `isNewPlayer`. */
  datatype Player = Player(id: Id, tribe: Tribe, start: int, lastLogin: int, level: int, flag: int)

  /** `OnlinePlayersData`: the same fields and the time of the next message. */
  datatype OnlinePlayer = OnlinePlayer(data: Player, nextMessage: int)

  datatype Config = Config(
    ignoreAdmins: bool,
    adminGroup: string,
    maxLevel: int,
    hours: int,
    allowNewPlayerDamage: bool,
    allowDisable: bool,
    allowCorrupted: bool,
    allowWild: bool,
    messageInterval: int,
    updateInterval: int)

  type Groups = map<Id, seq<string>>

  /** `IsAdmin`: looked up in the cache of permission groups. */
  predicate IsAdmin(cfg: Config, groups: Groups, id: Id) {
    cfg.ignoreAdmins && id in groups && Names.Lists(groups[id], cfg.adminGroup)
  }

  function Admins(cfg: Config, groups: Groups): (s: set<Id>)
    ensures forall id :: id in s <==> IsAdmin(cfg, groups, id)
  {
    set id | id in groups && IsAdmin(cfg, groups, id)
  }

  predicate Known(all: seq<Player>, id: Id) {
    exists i :: 0 <= i < |all| && all[i].id == id
  }

  predicate IsOnline(online: seq<OnlinePlayer>, id: Id) {
    exists i :: 0 <= i < |online| && online[i].data.id == id
  }

  function OnlineIds(online: seq<OnlinePlayer>): (s: set<Id>)
    ensures forall id :: id in s <==> IsOnline(online, id)
  {
    set i | 0 <= i < |online| :: online[i].data.id
  }

  predicate UniqueIds(all: seq<Player>) {
    forall i, j :: 0 <= i < j < |all| ==> all[i].id != all[j].id
  }

  predicate UniqueOnline(online: seq<OnlinePlayer>) {
    forall i, j :: 0 <= i < j < |online| ==> online[i].data.id != online[j].data.id
  }

  /** A non-admin record of the tribe. */
  predicate Member(p: Player, admins: set<Id>, tribe: Tribe) {
    p.id !in admins && p.tribe == tribe
  }
}
