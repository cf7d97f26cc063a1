/** The damage hook: whether a hit on a structure goes through, and whom it notifies. */
module Damage {
  import opened Players
  import opened PveTribes
  import opened Protection
  import opened Invariants
  import opened TribePolicy
  import opened Commands
  import opened Plugin

  datatype Causer = NoCauser | Causer(team: int, dino: bool, corrupt: bool)

  /** The controller behind the hit. Its class is one of these, never two. */
  datatype Instigator = Nobody | DinoInstigator(wildTeam: int, corrupt: bool) | PlayerInstigator(id: Id) | OtherInstigator

  datatype Hit = Hit(hasStructure: bool, exempt: bool, attackedTeam: int, causer: Causer, instigator: Instigator)

  /** A team is a 32-bit signed field read into an unsigned 64-bit variable. */
  function AsTribe(team: int): Tribe {
    team % 0x1_0000_0000_0000_0000
  }

  const WILD_TEAMS: int := 10_000

  /** Wild creatures that the configuration lets through. */
  predicate WildAllowed(cfg: Config, team: int, corrupt: bool) {
    team < WILD_TEAMS && (cfg.allowWild || (cfg.allowCorrupted && corrupt))
  }

  /** The player's full record is flagged and counts: online and not an admin. */
  predicate PlayerFlagged(s: State, id: Id) {
    IsOnline(s.online, id) && id !in AdminsOf(s)
    && exists i :: 0 <= i < |s.all| && s.all[i].id == id && s.all[i].flag == 1
  }

  /** The policy, flat, over the full records, the PVE set, the admins and the configuration. */
  predicate Blocked(s: State, hit: Hit) {
    var attacked := AsTribe(hit.attackedTeam);
    && hit.hasStructure && !hit.exempt
    && match hit.causer
       case NoCauser => TribeProtected(s, attacked)
       case Causer(team, dino, corrupt) =>
         && attacked != AsTribe(team)
         && match hit.instigator
            case Nobody =>
              if TribeProtected(s, attacked) then !(dino && WildAllowed(s.cfg, team, corrupt))
              else TribeProtected(s, AsTribe(team)) && !s.cfg.allowNewPlayerDamage
            case PlayerInstigator(id) =>
              && id !in AdminsOf(s)
              && if PlayerFlagged(s, id) then !s.cfg.allowNewPlayerDamage && attacked >= LOWEST_TRIBE
                 else TribeProtected(s, attacked)
            case _ => false
  }

  lemma {:induction false} FlaggedIsProtected(s: State, id: Id)
    requires Valid(s)
    ensures PlayerFlagged(s, id) <==> PlayerProtected(s, id)
  {
    WhoIsProtected(s, id);
  }

  // ---------------------------------------------------------------- whom the hook asks about

  function IdsOfTribe(online: seq<OnlinePlayer>, tribe: Tribe): seq<Id> {
    if online == [] then []
    else
      var n := |online| - 1;
      IdsOfTribe(online[..n], tribe) + (if online[n].data.tribe == tribe then [online[n].data.id] else [])
  }

  function AskedAbout(s: State, hit: Hit): seq<Id> {
    if !Blocked(s, hit) || hit.causer.NoCauser? then []
    else
      match hit.instigator
      case PlayerInstigator(id) => [id]
      case Nobody =>
        if TribeProtected(s, AsTribe(hit.attackedTeam)) then IdsOfTribe(s.online, AsTribe(hit.causer.team)) else []
      case _ => []
  }

  function NotifyAll(s: State, ids: seq<Id>, now: int): State {
    if ids == [] then s else Notify(NotifyAll(s, ids[..|ids| - 1], now), ids[|ids| - 1], now)
  }

  /** Equal but for message times. */
  predicate SameButMessages(s: State, t: State) {
    t == s.(online := t.online) && Data(t.online) == Data(s.online)
  }

  lemma {:induction false} NotifyAllFrame(s: State, ids: seq<Id>, now: int)
    ensures SameButMessages(s, NotifyAll(s, ids, now))
  {
    if ids != [] {
      var n := |ids| - 1;
      NotifyAllFrame(s, ids[..n], now);
      var m := NotifyAll(s, ids[..n], now);
      assert Data(Notify(m, ids[n], now).online) == Data(m.online);
    }
  }

  lemma {:induction false} SameOnline(s: State, t: State, id: Id)
    requires SameButMessages(s, t)
    ensures IsOnline(t.online, id) <==> IsOnline(s.online, id)
  {
    if i :| 0 <= i < |s.online| && s.online[i].data.id == id {
      assert Data(s.online)[i].id == id;
      assert t.online[i].data.id == id;
    }
    if i :| 0 <= i < |t.online| && t.online[i].data.id == id {
      assert Data(t.online)[i].id == id;
      assert s.online[i].data.id == id;
    }
  }

  /** Message timers never change a verdict: whatever notifications earlier hits sent, any hit
      is decided as if none had been sent. */
  lemma {:induction false} MessagesDoNotDecide(s: State, ids: seq<Id>, now: int, hit: Hit)
    ensures Blocked(NotifyAll(s, ids, now), hit) <==> Blocked(s, hit)
  {
    NotifyAllFrame(s, ids, now);
    if hit.instigator.PlayerInstigator? {
      SameOnline(s, NotifyAll(s, ids, now), hit.instigator.id);
    }
  }

  // ---------------------------------------------------------------- what the policy means

  /** Teams as tribe ids: different teams stay different, and every team below zero is above the
      lowest protected id. */
  lemma {:induction false} TeamsAsTribes(a: int, b: int)
    requires -0x8000_0000 <= a < 0x8000_0000 && -0x8000_0000 <= b < 0x8000_0000
    ensures AsTribe(a) == AsTribe(b) <==> a == b
    ensures AsTribe(a) > 100_000 <==> a < 0 || a > 100_000
    ensures a >= 0 ==> AsTribe(a) == a
  {
  }

  /** In a reachable state an unprotected non-admin player of another tribe does nothing to a
      non-exempt structure of a tribe with a flagged non-admin record or PVE status. */
  lemma {:induction false} ProtectedTribeIsSafe(s: State, hit: Hit)
    requires Valid(s) && hit.hasStructure && !hit.exempt && hit.causer.Causer? && hit.instigator.PlayerInstigator?
    requires AsTribe(hit.causer.team) != AsTribe(hit.attackedTeam)
    requires hit.instigator.id !in AdminsOf(s) && !PlayerProtected(s, hit.instigator.id)
    ensures Blocked(s, hit) <==> TribeProtected(s, AsTribe(hit.attackedTeam))
  {
  }

  /** Hits that always go through: no structure, an exempt one, the own tribe's, by an admin, or
      by a controller that is neither a player nor absent. */
  lemma {:induction false} NeverStopped(s: State, hit: Hit)
    requires || !hit.hasStructure || hit.exempt
             || (hit.causer.Causer? && AsTribe(hit.causer.team) == AsTribe(hit.attackedTeam))
             || (hit.causer.Causer? && hit.instigator.PlayerInstigator? && hit.instigator.id in AdminsOf(s))
             || (hit.causer.Causer? && (hit.instigator.DinoInstigator? || hit.instigator.OtherInstigator?))
    ensures !Blocked(s, hit)
  {
    hide IsAdmin, TribeProtected;
  }

  /** A hit on another tribe's structure that counts. */
  predicate Foreign(hit: Hit) {
    && hit.hasStructure && !hit.exempt
    && (hit.causer.Causer? ==> AsTribe(hit.causer.team) != AsTribe(hit.attackedTeam))
  }

  /** A new player's hit on another tribe is stopped exactly when new players may do no damage and
      the structure belongs to a tribe, whoever that is. */
  lemma {:induction false} NewPlayerHits(s: State, hit: Hit)
    requires Foreign(hit) && hit.causer.Causer? && hit.instigator.PlayerInstigator? && PlayerFlagged(s, hit.instigator.id)
    ensures Blocked(s, hit) <==> !s.cfg.allowNewPlayerDamage && AsTribe(hit.attackedTeam) >= 100_000
  {
    hide IsAdmin, TribeProtected;
  }

  /** The hit comes from nobody, from another player or through no controller, and in the last case
      not from a wild creature that the configuration lets through. */
  predicate Unexcused(s: State, hit: Hit) {
    hit.causer.Causer? ==>
      || (hit.instigator.PlayerInstigator? && hit.instigator.id !in AdminsOf(s) && !PlayerFlagged(s, hit.instigator.id))
      || (hit.instigator.Nobody?
          && !(hit.causer.dino && hit.causer.team < 10_000
               && (s.cfg.allowWild || (s.cfg.allowCorrupted && hit.causer.corrupt))))
  }

  /** In every run a tribe in the live set of the PVE machine is safe from all such hits. */
  lemma {:induction false} PveTribeIsSafe(cfg: Config, now: int, es: seq<Event>, hit: Hit)
    requires var m := IdealRun(Ideal({}, {}, {}), PveHistory(Initial(cfg, now), es));
             AsTribe(hit.attackedTeam) > 100_000 && AsTribe(hit.attackedTeam) in m.live
    requires Foreign(hit) && Unexcused(RunAll(Initial(cfg, now), es), hit)
    ensures Blocked(RunAll(Initial(cfg, now), es), hit)
  {
    hide IsAdmin, RunAll, PveHistory, IdealRun, AsTribe;
    var s0 := Initial(cfg, now);
    var s := RunAll(s0, es);
    RunValid(cfg, now, []);
    EmptyStart(cfg, now);
    RunFollowsIdeal(s0, es);
    assert AsTribe(hit.attackedTeam) in Elements(s.pve.listed);
    assert AsTribe(hit.attackedTeam) in s.pve.listed;
  }

  lemma {:induction false} EmptyStart(cfg: Config, now: int)
    ensures Abstract(Initial(cfg, now).pve) == Ideal({}, {}, {}) && Valid(Initial(cfg, now))
  {
  }

  /** Above the lowest id, PVE or with a non-admin record and all of them flagged. */
  predicate Shielded(s: State, tribe: Tribe) {
    && tribe > 100_000
    && (tribe in s.pve.listed
        || (&& (exists i :: 0 <= i < |s.all| && s.all[i].tribe == tribe && s.all[i].id !in AdminsOf(s))
            && (forall i :: 0 <= i < |s.all| && s.all[i].tribe == tribe && s.all[i].id !in AdminsOf(s) ==>
                  s.all[i].flag == 1)))
  }

  lemma {:induction false} ShieldIsScan(s: State, tribe: Tribe)
    requires Valid(s) && Uniform(s)
    ensures Shielded(s, tribe) <==> TribeProtected(s, tribe)
  {
    hide IsAdmin, TribeProtected, Uniform, Valid;
    if tribe > 100_000 && tribe !in s.pve.listed {
      ScanIsPolicy(s, tribe);
      KnownTribe(s, tribe);
    } else {
      PveScan(s, tribe);
    }
  }

  lemma {:induction false} PveScan(s: State, tribe: Tribe)
    requires tribe <= 100_000 || tribe in s.pve.listed
    ensures TribeProtected(s, tribe) <==> tribe > 100_000
  {
  }

  /** With uniform flags, as after every update, such a hit is stopped exactly when all members of
      the attacked tribe are flagged or it is PVE; a hit without controller also when the same
      holds of the attacker's tribe and new players may do no damage. */
  lemma {:induction false} FlagsDecideHits(s: State, hit: Hit)
    requires Valid(s) && Uniform(s) && Foreign(hit) && Unexcused(s, hit)
    ensures Blocked(s, hit) <==>
            || Shielded(s, AsTribe(hit.attackedTeam))
            || (&& hit.causer.Causer? && hit.instigator.Nobody?
                && Shielded(s, AsTribe(hit.causer.team)) && !s.cfg.allowNewPlayerDamage)
  {
    hide IsAdmin, TribeProtected, Shielded, Uniform, Valid;
    ShieldIsScan(s, AsTribe(hit.attackedTeam));
    if hit.causer.Causer? {
      ShieldIsScan(s, AsTribe(hit.causer.team));
    }
  }

  /** A wild creature that the configuration lets through is stopped only where it would be without
      any shield on the attacked tribe. */
  lemma {:induction false} WildHits(s: State, hit: Hit)
    requires Valid(s) && Uniform(s) && Foreign(hit) && hit.causer.Causer? && hit.instigator.Nobody?
    requires hit.causer.dino && hit.causer.team < 10_000 && (s.cfg.allowWild || (s.cfg.allowCorrupted && hit.causer.corrupt))
    ensures Blocked(s, hit) <==>
            && !Shielded(s, AsTribe(hit.attackedTeam))
            && Shielded(s, AsTribe(hit.causer.team)) && !s.cfg.allowNewPlayerDamage
  {
    hide IsAdmin, TribeProtected, Shielded, Uniform, Valid;
    ShieldIsScan(s, AsTribe(hit.attackedTeam));
    ShieldIsScan(s, AsTribe(hit.causer.team));
  }

  lemma {:induction false} IdsOfTribeHas(online: seq<OnlinePlayer>, tribe: Tribe, id: Id)
    ensures id in IdsOfTribe(online, tribe) <==>
            exists k :: 0 <= k < |online| && online[k].data.id == id && online[k].data.tribe == tribe
  {
    if online != [] {
      var n := |online| - 1;
      IdsOfTribeHas(online[..n], tribe, id);
      if k :| 0 <= k < n && online[k].data.id == id && online[k].data.tribe == tribe {
        assert online[..n][k] == online[k];
      }
      if k :| 0 <= k < n && online[..n][k].data.id == id && online[..n][k].data.tribe == tribe {
        assert online[k] == online[..n][k];
      }
    }
  }

  /** Whom a hit may notify: nobody when it goes through or has no causer; the hitting player; for a
      hit without controller on a shielded tribe the online players of the hitting tribe; nobody
      when it was stopped for the attacker's sake. */
  lemma {:induction false} WhoIsAsked(s: State, hit: Hit, id: Id)
    requires Valid(s) && Uniform(s)
    ensures id in AskedAbout(s, hit) <==>
            && Blocked(s, hit) && hit.causer.Causer?
            && match hit.instigator
               case PlayerInstigator(hitter) => id == hitter
               case Nobody =>
                 && Shielded(s, AsTribe(hit.attackedTeam))
                 && exists k :: 0 <= k < |s.online| && s.online[k].data.id == id
                                && s.online[k].data.tribe == AsTribe(hit.causer.team)
               case _ => false
  {
    hide IsAdmin, TribeProtected, Shielded, Uniform, Valid;
    ShieldIsScan(s, AsTribe(hit.attackedTeam));
    if hit.causer.Causer? {
      IdsOfTribeHas(s.online, AsTribe(hit.causer.team), id);
    }
  }

  // ---------------------------------------------------------------- the hook

  lemma {:induction false} NotifyOneMore(s: State, ids: seq<Id>, id: Id, now: int)
    ensures NotifyAll(s, ids + [id], now) == Notify(NotifyAll(s, ids, now), id, now)
    ensures NotifyAll(s, [], now) == s
  {
  }

  lemma {:induction false} NotifyNext(s: State, k: nat, tribe: Tribe, now: int)
    requires k < |s.online|
    ensures var m := NotifyAll(s, IdsOfTribe(s.online[..k], tribe), now);
            && |m.online| == |s.online| && m.online[k].data == s.online[k].data
            && NotifyAll(s, IdsOfTribe(s.online[..k + 1], tribe), now) ==
               if s.online[k].data.tribe == tribe then Notify(m, s.online[k].data.id, now) else m
  {
    NotifyAllFrame(s, IdsOfTribe(s.online[..k], tribe), now);
    var m := NotifyAll(s, IdsOfTribe(s.online[..k], tribe), now);
    assert Data(m.online)[k] == Data(s.online)[k];
    assert s.online[..k + 1][..k] == s.online[..k];
    NotifyOneMore(s, IdsOfTribe(s.online[..k], tribe), s.online[k].data.id, now);
    assert IdsOfTribe(s.online[..k], tribe) + [] == IdsOfTribe(s.online[..k], tribe);
  }

  /** The loop over the attacker's tribe. */
  method NotifyTribe(p: NewPlayerProtection, tribe: Tribe, now: int)
    requires Valid(p.View())
    modifies p`online
    ensures p.View() == NotifyAll(old(p.View()), IdsOfTribe(old(p.online), tribe), now)
    ensures Valid(p.View())
  {
    hide Valid, Notify, IsAdmin;
    ghost var s := p.View();
    NotifyOneMore(s, [], 0, now);
    assert s.online[..0] == [];
    var k := 0;
    while k < |p.online|
      invariant k <= |p.online| == |s.online|
      invariant Valid(p.View())
      invariant p.View() == NotifyAll(s, IdsOfTribe(s.online[..k], tribe), now)
    {
      NotifyNext(s, k, tribe, now);
      if p.online[k].data.tribe == tribe {
        var _ := p.IsNextMessageReady(p.online[k].data.id, now);
      }
      k := k + 1;
      NotifyAllFrame(s, IdsOfTribe(s.online[..k], tribe), now);
    }
    assert s.online[..k] == s.online;
  }

  /** `Hook_APrimalStructure_TakeDamage` as nested in the source; `true` hands the hit on to
      the game, `false` answers 0. */
  method TakeDamage(p: NewPlayerProtection, hit: Hit, now: int) returns (passes: bool)
    requires Valid(p.View())
    modifies p`online
    ensures passes <==> !Blocked(old(p.View()), hit)
    ensures p.View() == NotifyAll(old(p.View()), AskedAbout(old(p.View()), hit), now)
    ensures Valid(p.View())
  {
    hide Valid, Notify, IsAdmin, TribeProtected, PlayerProtected, PlayerFlagged;
    ghost var s := p.View();
    NotifyOneMore(s, [], if hit.instigator.PlayerInstigator? then hit.instigator.id else 0, now);
    passes := true;
    if hit.hasStructure {
      if !hit.exempt {
        var attacked := AsTribe(hit.attackedTeam);
        if hit.causer.Causer? {
          var attacking := AsTribe(hit.causer.team);
          if !hit.instigator.Nobody? {
            if hit.instigator.DinoInstigator? {
              if p.cfg.allowCorrupted && hit.instigator.wildTeam < WILD_TEAMS {
                if hit.instigator.corrupt {
                  return true;
                }
              }
              if p.cfg.allowWild && hit.instigator.wildTeam < WILD_TEAMS {
                return true;
              }
            }
            if hit.instigator.PlayerInstigator? {
              var id := hit.instigator.id;
              FlaggedIsProtected(s, id);
              assert [] + [id] == [id];
              if IsAdmin(p.cfg, p.groups, id) {
                return true;
              }
              var isProtected := p.IsPlayerProtected(id);
              if isProtected {
                if !p.cfg.allowNewPlayerDamage {
                  if attacked < LOWEST_TRIBE || attacked == attacking {
                    return true;
                  }
                  var _ := p.IsNextMessageReady(id, now);
                  return false;
                }
              } else {
                var tribeProtected := p.IsTribeProtected(attacked);
                if tribeProtected && attacked != attacking {
                  var _ := p.IsNextMessageReady(id, now);
                  return false;
                }
              }
            }
          } else {
            if attacked == attacking {
              return true;
            }
            var tribeProtected := p.IsTribeProtected(attacked);
            if tribeProtected {
              if hit.causer.dino {
                if p.cfg.allowCorrupted && hit.causer.team < WILD_TEAMS {
                  if hit.causer.corrupt {
                    return true;
                  }
                }
                if p.cfg.allowWild && hit.causer.team < WILD_TEAMS {
                  return true;
                }
              }
              NotifyTribe(p, attacking, now);
              return false;
            }
            var attackerProtected := p.IsTribeProtected(attacking);
            if attackerProtected && !p.cfg.allowNewPlayerDamage {
              return false;
            }
          }
        } else {
          var tribeProtected := p.IsTribeProtected(attacked);
          if tribeProtected {
            return false;
          }
        }
      }
    }
  }
}
