/** What survives a stop of the server: everything of the last world save, nothing after it. */
module Durability {
  import opened Players
  import opened PveTribes
  import opened Protection
  import opened Invariants

  lemma {:induction false} OnlySavesWrite(s: State, e: Event)
    requires !e.SaveEvent?
    ensures Next(s, e).rows == s.rows && Next(s, e).pve.table == s.pve.table
  {
  }

  lemma {:induction false} TablesUnchanged(s: State, es: seq<Event>)
    requires forall i :: 0 <= i < |es| ==> !es[i].SaveEvent?
    ensures RunAll(s, es).rows == s.rows && RunAll(s, es).pve.table == s.pve.table
  {
    hide Next;
    if es != [] {
      TablesUnchanged(s, es[..|es| - 1]);
      OnlySavesWrite(RunAll(s, es[..|es| - 1]), es[|es| - 1]);
    }
  }

  /** A restart after any run of logins, ticks, commands and restarts without a save leads to the
      very state that a restart right after the last save would have led to. */
  lemma {:induction false} RestartForgetsSinceSave(s: State, since: seq<Event>, cfg: Config, kept: set<Id>, now: int)
    requires forall i :: 0 <= i < |since| ==> !since[i].SaveEvent?
    ensures Reboot(RunAll(SaveWorld(s), since), cfg, kept, now) == Reboot(SaveWorld(s), cfg, kept, now)
  {
    hide Next, SaveWorld;
    TablesUnchanged(SaveWorld(s), since);
  }

  /** And in a reachable state that is: the same PVE tribes, and the records in memory at the
      save, with times cut to milliseconds, as far as the age filter keeps them. */
  lemma {:induction false} RestartRestoresSave(s: State, since: seq<Event>, cfg: Config, kept: set<Id>, now: int)
    requires Valid(s) && forall i :: 0 <= i < |since| ==> !since[i].SaveEvent?
    ensures var t := Reboot(RunAll(SaveWorld(s), since), cfg, kept, now);
            && Valid(t)
            && (forall tribe :: IsPve(t.pve, tribe) <==> IsPve(s.pve, tribe))
            && (forall i :: 0 <= i < |s.all| && s.all[i].id in kept ==> Persist(s.all[i]) in t.all)
  {
    hide Next, Consistent, Save, Load, Select, Protection.Persist;
    RestartForgetsSinceSave(s, since, cfg, kept, now);
    SaveValid(s);
    RebootValid(SaveWorld(s), cfg, kept, now);
    var t := Reboot(SaveWorld(s), cfg, kept, now);
    forall tribe
      ensures IsPve(t.pve, tribe) <==> IsPve(s.pve, tribe)
    {
      SaveIsFaithful(s.pve);
      assert tribe in Elements(t.pve.listed) <==> tribe in Elements(s.pve.listed);
    }
    forall i | 0 <= i < |s.all| && s.all[i].id in kept
      ensures Persist(s.all[i]) in t.all
    {
      StoredPlayer(s, i);
      Loaded(SaveWorld(s).rows, kept, Persist(s.all[i]));
    }
  }

  lemma {:induction false} StoredPlayer(s: State, i: nat)
    requires UniqueIds(s.all) && i < |s.all|
    ensures s.all[i].id in SaveWorld(s).rows && SaveWorld(s).rows[s.all[i].id] == Persist(s.all[i])
  {
    assert Known(s.all, s.all[i].id);
    assert Find(s.all, s.all[i].id) == i;
  }
}
