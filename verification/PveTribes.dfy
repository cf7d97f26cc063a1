/** The two in-memory PVE lists and the table PVE_Tribes behind them, through
    SetPVE, world save and restart. */
module PveTribes {
  import opened Players
  import opened Vectors

  datatype Pve = Pve(listed: seq<Tribe>, removed: seq<Tribe>, table: map<Tribe, bool>)

  function Elements(v: seq<Tribe>): set<Tribe> {
    set x | x in v
  }

  /** The rows with `Is_Protected = 1`. */
  function Protected(table: map<Tribe, bool>): set<Tribe> {
    set t | t in table && table[t]
  }

  lemma {:induction false} LeastExists(s: set<Tribe>) returns (m: Tribe)
    requires s != {}
    ensures m in s && forall x :: x in s ==> m <= x
    decreases |s|
  {
    m :| m in s;
    var rest := s - {m};
    assert forall x :: x in s ==> x == m || x in rest;
    if rest != {} {
      var least := LeastExists(rest);
      if least < m {
        m := least;
      }
    }
  }

  function Least(s: set<Tribe>): (m: Tribe)
    requires s != {}
    ensures m in s && forall x :: x in s ==> m <= x
  {
    assert exists m :: m in s && forall x :: x in s ==> m <= x by {
      var m := LeastExists(s);
    }
    var m :| m in s && forall x :: x in s ==> m <= x;
    m
  }

  /** Rows come back in the order of the integer primary key. */
  function Ascending(s: set<Tribe>): seq<Tribe>
    decreases |s|
  {
    if s == {} then [] else var m := Least(s); [m] + Ascending(s - {m})
  }

  lemma {:induction false} AscendingIsOrdered(s: set<Tribe>)
    ensures forall x :: x in Ascending(s) <==> x in s
    ensures forall i, j :: 0 <= i < j < |Ascending(s)| ==> Ascending(s)[i] < Ascending(s)[j]
    decreases |s|
  {
    if s != {} {
      var m := Least(s);
      var rest := Ascending(s - {m});
      AscendingIsOrdered(s - {m});
      forall i | 0 <= i < |rest|
        ensures m < rest[i]
      {
        assert rest[i] in s - {m};
      }
    }
  }

  /** `SELECT TribeId FROM PVE_Tribes where Is_Protected = 1`. */
  function Select(table: map<Tribe, bool>): (r: seq<Tribe>)
    ensures Elements(r) == Protected(table) && Distinct(r)
  {
    AscendingIsOrdered(Protected(table));
    Ascending(Protected(table))
  }

  /** The tribe lists of every reachable state. */
  predicate Consistent(p: Pve) {
    && Distinct(p.listed)
    && Distinct(p.removed)
    && Elements(p.listed) !! Elements(p.removed)
    && Protected(p.table) <= Elements(p.listed) + Elements(p.removed)
  }

  function Marked(tribes: seq<Tribe>, value: bool): map<Tribe, bool> {
    map t | t in tribes :: value
  }

  /** The effect of the two loops of `SaveWorld`. */
  function Save(p: Pve): Pve {
    var written := p.table + Marked(p.listed, true);
    if p.removed == [] then p.(table := written)
    else
      var table := written + Marked(p.removed, false);
      Pve(Select(table), [], table)
  }

  /** A new process: the lists start empty and `LoadDB` fills the first one. */
  function Restart(p: Pve): Pve {
    Pve(Select(p.table), [], p.table)
  }

  /** SetPVE is refused for unknown tribes; over RCON a tribe is also known by being in
      one of the lists. */
  predicate SetAllowed(p: Pve, tribe: Tribe, found: bool, rcon: bool) {
    found || (rcon && (tribe in p.listed || tribe in p.removed))
  }

  function FirstIndex(v: seq<Tribe>, x: Tribe): (i: nat)
    requires x in v
    ensures i < |v| && v[i] == x && forall k :: 0 <= k < i ==> v[k] != x
  {
    if v[0] == x then 0 else 1 + FirstIndex(v[1..], x)
  }

  function Erased(v: seq<Tribe>, x: Tribe): seq<Tribe> {
    if x in v then ErasedAliased(v, FirstIndex(v, x)) else v
  }

  /** Console and RCON SetPVE. */
  function SetPve(p: Pve, tribe: Tribe, on: bool, found: bool, rcon: bool): Pve {
    if !SetAllowed(p, tribe, found, rcon) then p
    else if on then
      if tribe in p.listed then p
      else p.(listed := p.listed + [tribe], removed := Erased(p.removed, tribe))
    else
      if tribe in p.removed then p
      else p.(removed := p.removed + [tribe], listed := Erased(p.listed, tribe))
  }

  lemma {:induction false} ErasedElements(v: seq<Tribe>, x: Tribe)
    requires Distinct(v)
    ensures Distinct(Erased(v, x)) && Elements(Erased(v, x)) == Elements(v) - {x}
  {
    if x in v {
      var at := FirstIndex(v, x);
      ErasedDistinct(v, at);
      forall y
        ensures y in Except(v, x) <==> y in v && y != x
      {
        ExceptHas(v, x, y);
      }
    }
  }

  /** A save changes the PVE status of no tribe, empties the removed list and leaves
      exactly the in-memory set protected in the table. */
  lemma SaveIsFaithful(p: Pve)
    requires Consistent(p)
    ensures Consistent(Save(p))
    ensures Elements(Save(p).listed) == Elements(p.listed)
    ensures Save(p).removed == []
    ensures Protected(Save(p).table) == Elements(p.listed)
  {
  }

  datatype PveEvent =
    | SetCommand(tribe: Tribe, on: bool, found: bool, rcon: bool)
    | WorldSaved
    | ServerRestarted

  function Step(p: Pve, e: PveEvent): Pve {
    match e
    case SetCommand(tribe, on, found, rcon) => SetPve(p, tribe, on, found, rcon)
    case WorldSaved => Save(p)
    case ServerRestarted => Restart(p)
  }

  function Run(p: Pve, es: seq<PveEvent>): Pve {
    if es == [] then p else Step(Run(p, es[..|es| - 1]), es[|es| - 1])
  }

  /** The intended machine: the live set, the tribes removed since the last save and the
      set as of the last save, with no lists and no table. */
  datatype Ideal = Ideal(live: set<Tribe>, dropped: set<Tribe>, saved: set<Tribe>)

  function IdealStep(m: Ideal, e: PveEvent): Ideal {
    match e
    case SetCommand(t, on, found, rcon) =>
      if !(found || (rcon && t in m.live + m.dropped)) then m
      else if on then m.(live := m.live + {t}, dropped := m.dropped - {t})
      else m.(live := m.live - {t}, dropped := m.dropped + {t})
    case WorldSaved => Ideal(m.live, {}, m.live)
    case ServerRestarted => Ideal(m.saved, {}, m.saved)
  }

  function IdealRun(m: Ideal, es: seq<PveEvent>): Ideal {
    if es == [] then m else IdealStep(IdealRun(m, es[..|es| - 1]), es[|es| - 1])
  }

  function Abstract(p: Pve): Ideal {
    Ideal(Elements(p.listed), Elements(p.removed), Protected(p.table))
  }

  lemma SetRefines(p: Pve, t: Tribe, on: bool, found: bool, rcon: bool)
    requires Consistent(p)
    ensures var q := SetPve(p, t, on, found, rcon);
            Consistent(q) && Abstract(q) == IdealStep(Abstract(p), SetCommand(t, on, found, rcon))
  {
    hide Erased, Protected;
    assert SetAllowed(p, t, found, rcon) <==>
           found || (rcon && t in Elements(p.listed) + Elements(p.removed));
    var q := SetPve(p, t, on, found, rcon);
    if SetAllowed(p, t, found, rcon) {
      if on {
        MoveElements(p.removed, p.listed, t);
      } else {
        MoveElements(p.listed, p.removed, t);
      }
    }
  }

  /** A tribe goes from one list to the other unless it is there. */
  lemma {:induction false} MoveElements(from: seq<Tribe>, to: seq<Tribe>, t: Tribe)
    requires Distinct(from) && Distinct(to) && Elements(from) !! Elements(to)
    ensures t in to ==> Elements(to) == Elements(to) + {t} && Elements(from) == Elements(from) - {t}
    ensures t !in to ==>
              && Distinct(to + [t]) && Elements(to + [t]) == Elements(to) + {t}
              && Distinct(Erased(from, t)) && Elements(Erased(from, t)) == Elements(from) - {t}
  {
    hide Erased;
    ErasedElements(from, t);
  }

  /** Durability over runs: lists and table follow the intended machine through any run of
      SetPVE, save and restart. */
  lemma {:induction false} RunRefinesIdeal(p: Pve, es: seq<PveEvent>)
    requires Consistent(p)
    ensures Consistent(Run(p, es))
    ensures Abstract(Run(p, es)) == IdealRun(Abstract(p), es)
  {
    if es != [] {
      var before := Run(p, es[..|es| - 1]);
      RunRefinesIdeal(p, es[..|es| - 1]);
      match es[|es| - 1]
      case SetCommand(t, on, found, rcon) => SetRefines(before, t, on, found, rcon);
      case WorldSaved => SaveIsFaithful(before);
      case ServerRestarted =>
    }
  }

  predicate IsPve(p: Pve, tribe: Tribe) {
    tribe in p.listed
  }

  lemma {:induction false} SavedSince(m: Ideal, es: seq<PveEvent>)
    requires forall i :: 0 <= i < |es| ==> !es[i].WorldSaved?
    ensures IdealRun(m, es).saved == m.saved
  {
    if es != [] {
      SavedSince(m, es[..|es| - 1]);
    }
  }

  /** A restart restores exactly the PVE tribes of the last save, whatever SetPVE commands and
      restarts came after it. */
  lemma RestartRestoresLastSave(p: Pve, since: seq<PveEvent>, tribe: Tribe)
    requires Consistent(p)
    requires forall i :: 0 <= i < |since| ==> !since[i].WorldSaved?
    ensures IsPve(Restart(Run(Save(p), since)), tribe) <==> IsPve(p, tribe)
  {
    SaveIsFaithful(p);
    RunRefinesIdeal(Save(p), since);
    SavedSince(Abstract(Save(p)), since);
    var q := Run(Save(p), since);
    assert tribe in Elements(Restart(q).listed) <==> tribe in Protected(q.table);
    assert tribe in Elements(p.listed) <==> tribe in p.listed;
  }

  /** Outside the invariant a removal can be lost: a tribe in both lists stays listed. */
  lemma RemovalNeedsDisjointLists(t: Tribe)
    ensures var p := Pve([t], [t], map[]);
            !Consistent(p) && SetPve(p, t, false, true, false) == p
  {
    assert t in Elements([t]);
  }
}
