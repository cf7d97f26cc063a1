/** What login, logout, save, restart and a message question leave behind, said over the records,
    the lists and the tables alone. */
module Entries {
  import opened Time
  import opened Players
  import opened PveTribes
  import opened Protection
  import opened Invariants
  import opened Durability

  /** A login of a player who is not online: a known player's record keeps everything but the last
      login, a new player gets a flagged record of level 1 that starts now; the online list gains
      a copy that may be messaged at once, and the cache the groups. */
  lemma {:induction false} LoginEnters(s: State, id: Id, team: Tribe, now: int, groups: seq<string>)
    requires Valid(s) && !IsOnline(s.online, id)
    ensures var t := Login(s, id, team, now, groups);
            && t == s.(all := t.all, online := t.online, groups := s.groups[id := groups])
            && |t.all| == |s.all| + (if Known(s.all, id) then 0 else 1)
            && (forall i :: 0 <= i < |s.all| ==>
                  t.all[i] == s.all[i].(lastLogin := if s.all[i].id == id then now else s.all[i].lastLogin))
            && (!Known(s.all, id) ==> t.all[|s.all|] == Player(id, team, now, now, 1, 1))
            && |t.online| == |s.online| + 1 && t.online[..|s.online|] == s.online
            && t.online[|s.online|].nextMessage == now
            && t.online[|s.online|].data.id == id && t.online[|s.online|].data in t.all
  {
    var t := Login(s, id, team, now, groups);
    if Known(s.all, id) {
      var k := Find(s.all, id);
      assert t.online[|s.online|].data == t.all[k];
    } else {
      var all := s.all + [Player(id, team, now, now, 1, 1)];
      assert all[|s.all|].id == id;
      assert Find(all, id) == |s.all|;
      assert t.all[|s.all|] == all[|s.all|];
    }
  }

  /** A login of a player who is online already renews the cached groups and nothing else. */
  lemma {:induction false} LoginAgain(s: State, id: Id, team: Tribe, now: int, groups: seq<string>)
    requires Valid(s) && IsOnline(s.online, id)
    ensures Login(s, id, team, now, groups) == s.(groups := s.groups[id := groups])
  {
  }

  lemma {:induction false} RemovedOthers(online: seq<OnlinePlayer>, id: Id, o: OnlinePlayer)
    requires o.data.id != id
    ensures o in Removed(online, id) <==> o in online
  {
    if IsOnline(online, id) {
      var g := FindOnline(online, id);
      assert online == online[..g] + [online[g]] + online[g + 1..];
    }
  }

  /** A logout takes the player out of the online list and the cache and nobody else; the full
      record stays. */
  lemma {:induction false} LogoutLeaves(s: State, id: Id)
    requires Valid(s)
    ensures var t := Logout(s, id);
            && t == s.(online := t.online, groups := s.groups - {id})
            && !IsOnline(t.online, id)
            && forall o: OnlinePlayer :: o.data.id != id ==> (o in t.online <==> o in s.online)
  {
    hide Removed, Consistent, RowsValid;
    forall o: OnlinePlayer | o.data.id != id
      ensures o in Logout(s, id).online <==> o in s.online
    {
      RemovedOthers(s.online, id, o);
    }
    NotOnlineAfter(s.online, id);
  }

  lemma {:induction false} NotOnlineAfter(online: seq<OnlinePlayer>, id: Id)
    requires UniqueOnline(online)
    ensures !IsOnline(Removed(online, id), id)
  {
    if IsOnline(online, id) {
      RemovedIds(online, id);
    }
  }

  /** A save leaves memory alone but for the pending removals; the row of every player in memory
      becomes the record with times cut to milliseconds, all other rows stay. */
  lemma {:induction false} SaveWrites(s: State, i: nat, other: Id)
    requires Valid(s) && i < |s.all| && !Known(s.all, other)
    ensures var t := SaveWorld(s);
            var p := s.all[i];
            && t == s.(pve := t.pve, rows := t.rows)
            && p.id in t.rows && (other in t.rows <==> other in s.rows)
            && (other in s.rows ==> t.rows[other] == s.rows[other])
            && var q := t.rows[p.id];
               && q == p.(start := q.start, lastLogin := q.lastLogin)
               && q.start <= p.start < q.start + 10_000 && q.start % 10_000 == 0
               && q.lastLogin <= p.lastLogin < q.lastLogin + 10_000 && q.lastLogin % 10_000 == 0
  {
    hide Valid, SaveWorld;
    UniqueWhenValid(s);
    StoredPlayer(s, i);
    SaveRow(s, other);
    Cut(s.all[i].start);
    Cut(s.all[i].lastLogin);
  }

  lemma {:induction false} SaveRow(s: State, other: Id)
    requires !Known(s.all, other)
    ensures var t := SaveWorld(s);
            && t == s.(pve := t.pve, rows := t.rows)
            && (other in t.rows <==> other in s.rows)
            && (other in s.rows ==> t.rows[other] == s.rows[other])
  {
  }

  lemma {:induction false} Cut(x: int)
    ensures var q := x - x % TICKS_PER_MILLISECOND;
            q <= x < q + 10_000 && q % 10_000 == 0
  {
  }

  /** A restart reads the configuration and the tables: the records are exactly the kept rows, in
      the order of ids; nobody is online, cached or an admin; the PVE tribes are those of the
      table; and an update is due at once. */
  lemma {:induction false} RestartReads(s: State, cfg: Config, kept: set<Id>, now: int)
    requires Valid(s)
    ensures var t := Reboot(s, cfg, kept, now);
            && t.cfg == cfg && t.interval == cfg.updateInterval && t.rows == s.rows && t.pve.table == s.pve.table
            && (forall p :: p in t.all <==> p.id in s.rows && p.id in kept && p == s.rows[p.id])
            && (forall i, j :: 0 <= i < j < |t.all| ==> t.all[i].id < t.all[j].id)
            && t.online == [] && t.groups == map[] && AdminsOf(t) == {}
            && (forall tribe :: tribe in t.pve.listed <==> tribe in s.pve.table && s.pve.table[tribe])
            && t.pve.removed == []
            && forall later, sights, current :: later >= now ==>
                 Tick(t, later, sights, current).nextUpdate == later + 60 * cfg.updateInterval * TICKS_PER_SECOND
  {
    hide IsAdmin, Load, Mirror, Refresh, Swept;
    var t := Reboot(s, cfg, kept, now);
    forall p: Player {
      Loaded(s.rows, kept, p);
    }
    LoadOrder(s.rows, kept);
    forall tribe: Tribe
      ensures tribe in t.pve.listed <==> tribe in s.pve.table && s.pve.table[tribe]
    {
      assert tribe in t.pve.listed <==> tribe in Elements(t.pve.listed);
    }
    forall later, sights, current | later >= now
      ensures Tick(t, later, sights, current).nextUpdate == later + 60 * cfg.updateInterval * TICKS_PER_SECOND
    {
      FirstTick(t, later, sights, current);
    }
  }

  lemma {:induction false} FirstTick(t: State, later: int, sights: map<Id, Sight>, current: Groups)
    requires t.nextUpdate <= later
    ensures Tick(t, later, sights, current).nextUpdate == later + 60 * t.interval * TICKS_PER_SECOND
  {
    DueExactly(t.nextUpdate, later);
  }

  lemma {:induction false} LoadOrder(rows: map<Id, Player>, kept: set<Id>)
    requires RowsValid(rows)
    ensures forall i, j :: 0 <= i < j < |Load(rows, kept)| ==> Load(rows, kept)[i].id < Load(rows, kept)[j].id
  {
    var ids := Ascending(rows.Keys * kept);
    AscendingIsOrdered(rows.Keys * kept);
    assert forall i :: 0 <= i < |ids| ==> ids[i] in rows.Keys * kept && Load(rows, kept)[i] == rows[ids[i]];
  }

  /** A player who is not online has no throttle, and asking about one changes nothing. */
  lemma {:induction false} UnknownIsReady(s: State, id: Id, now: int)
    requires !IsOnline(s.online, id)
    ensures MessageReady(s.online, id, now) && Notify(s, id, now) == s
  {
  }
}
