/** Permission groups: two tables that hold sets of names as text. The text operations are
    shown to act as operations on sets, and to keep the tables in step. */
module Permissions {
  import opened Names
  import opened NameLists

  type SteamId = nat

  /** The Players table, and the Groups table keyed without regard to case. */
  datatype Db = Db(players: map<SteamId, string>, groups: map<string, string>)

  datatype Answer =
    | Done | GroupMissing | AlreadyAdded | PlayerOrGroupMissing | NotInGroup
    | GroupPresent | AlreadyGranted | NotGranted

  const NEW_PLAYER: string := "Default,"

  predicate GroupExists(db: Db, g: string) {
    Fold(g) in db.groups
  }

  function PlayerGroups(db: Db, id: SteamId): seq<string> {
    if id in db.players then Split(db.players[id]) else []
  }

  function GroupPermissions(db: Db, g: string): seq<string> {
    if g == [] || !GroupExists(db, g) then [] else Split(db.groups[Fold(g)])
  }

  predicate InGroup(db: Db, id: SteamId, g: string) {
    Lists(PlayerGroups(db, id), g)
  }

  predicate GroupHas(db: Db, g: string, permission: string) {
    GroupExists(db, g) && Lists(GroupPermissions(db, g), permission)
  }

  predicate PlayerHas(db: Db, id: SteamId, permission: string) {
    var names := PlayerGroups(db, id);
    exists i :: 0 <= i < |names| && (GroupHas(db, names[i], permission) || GroupHas(db, names[i], "*"))
  }

  // ---------------------------------------------------------------- the text operations

  function WithPlayer(db: Db, id: SteamId): Db {
    if id in db.players then db else db.(players := db.players[id := NEW_PLAYER])
  }

  function AddPlayerToGroup(db: Db, id: SteamId, g: string): (Db, Answer) {
    var known := WithPlayer(db, id);
    if !GroupExists(known, g) then (known, GroupMissing)
    else if InGroup(known, id, g) then (known, AlreadyAdded)
    else (known.(players := known.players[id := known.players[id] + (g + [COMMA])]), Done)
  }

  function RemovePlayerFromGroup(db: Db, id: SteamId, g: string): (Db, Answer) {
    if id !in db.players || !GroupExists(db, g) then (db, PlayerOrGroupMissing)
    else if !InGroup(db, id, g) then (db, NotInGroup)
    else (db.(players := db.players[id := Join(Without(Split(db.players[id]), g))]), Done)
  }

  function AddGroup(db: Db, g: string): (Db, Answer) {
    if GroupExists(db, g) then (db, GroupPresent) else (db.(groups := db.groups[Fold(g) := []]), Done)
  }

  function Expelled(db: Db, g: string): map<SteamId, string> {
    map id | id in db.players ::
      if InGroup(db, id, g) then Join(Without(Split(db.players[id]), g)) else db.players[id]
  }

  function RemoveGroup(db: Db, g: string): (Db, Answer) {
    if !GroupExists(db, g) then (db, GroupMissing) else (Db(Expelled(db, g), db.groups - {Fold(g)}), Done)
  }

  function Grant(db: Db, g: string, permission: string): (Db, Answer) {
    if !GroupExists(db, g) then (db, GroupMissing)
    else if GroupHas(db, g, permission) then (db, AlreadyGranted)
    else (db.(groups := db.groups[Fold(g) := db.groups[Fold(g)] + (permission + [COMMA])]), Done)
  }

  function Revoke(db: Db, g: string, permission: string): (Db, Answer) {
    if !GroupExists(db, g) then (db, GroupMissing)
    else if !GroupHas(db, g, permission) then (db, NotGranted)
    else (db.(groups := db.groups[Fold(g) := Join(Without(GroupPermissions(db, g), permission))]), Done)
  }

  // ---------------------------------------------------------------- the same on sets

  datatype Roles = Roles(members: map<SteamId, set<string>>, grants: map<string, set<string>>)

  const DEFAULT_GROUP: string := "default"

  datatype Request =
    | Enlist(id: SteamId, group: string)
    | Leave(id: SteamId, group: string)
    | CreateGroup(group: string)
    | DropGroup(group: string)
    | Allow(group: string, permission: string)
    | Forbid(group: string, permission: string)

  function Serve(db: Db, r: Request): (Db, Answer) {
    match r
    case Enlist(id, g) => AddPlayerToGroup(db, id, g)
    case Leave(id, g) => RemovePlayerFromGroup(db, id, g)
    case CreateGroup(g) => AddGroup(db, g)
    case DropGroup(g) => RemoveGroup(db, g)
    case Allow(g, permission) => Grant(db, g, permission)
    case Forbid(g, permission) => Revoke(db, g, permission)
  }

  function SetServe(r: Roles, q: Request): (Roles, Answer) {
    var f := Fold(q.group);
    match q
    case Enlist(id, _) =>
      var known := if id in r.members then r else r.(members := r.members[id := {DEFAULT_GROUP}]);
      if f !in r.grants then (known, GroupMissing)
      else if f in known.members[id] then (known, AlreadyAdded)
      else (known.(members := known.members[id := known.members[id] + {f}]), Done)
    case Leave(id, _) =>
      if id !in r.members || f !in r.grants then (r, PlayerOrGroupMissing)
      else if f !in r.members[id] then (r, NotInGroup)
      else (r.(members := r.members[id := r.members[id] - {f}]), Done)
    case CreateGroup(_) =>
      if f in r.grants then (r, GroupPresent) else (r.(grants := r.grants[f := {}]), Done)
    case DropGroup(_) =>
      if f !in r.grants then (r, GroupMissing)
      else (Roles(map id | id in r.members :: r.members[id] - {f}, r.grants - {f}), Done)
    case Allow(_, permission) =>
      if f !in r.grants then (r, GroupMissing)
      else if Fold(permission) in r.grants[f] then (r, AlreadyGranted)
      else (r.(grants := r.grants[f := r.grants[f] + {Fold(permission)}]), Done)
    case Forbid(_, permission) =>
      if f !in r.grants then (r, GroupMissing)
      else if Fold(permission) !in r.grants[f] then (r, NotGranted)
      else (r.(grants := r.grants[f := r.grants[f] - {Fold(permission)}]), Done)
  }

  function Abstract(db: Db): Roles {
    Roles(map id | id in db.players :: Folded(Split(db.players[id])),
          map f | f in db.groups :: Folded(Split(db.groups[f])))
  }

  /** A stored list: empty or closed by a comma, no name twice. */
  predicate StoredList(s: string) {
    Terminated(s) && FoldDistinct(Split(s))
  }

  /** Every list is well stored and every listed group exists or is the default one. */
  predicate Valid(db: Db) {
    && (forall id :: id in db.players ==>
          StoredList(db.players[id]) && Folded(Split(db.players[id])) <= db.groups.Keys + {DEFAULT_GROUP})
    && (forall f :: f in db.groups ==> StoredList(db.groups[f]))
  }

  predicate GoodRequest(q: Request) {
    && GoodName(q.group)
    && ((q.Allow? || q.Forbid?) ==> GoodName(q.permission))
  }

  // ---------------------------------------------------------------- one list

  lemma {:induction false} AppendStored(s: string, name: string)
    requires StoredList(s) && GoodName(name) && !Lists(Split(s), name)
    ensures var t := s + (name + [COMMA]);
            StoredList(t) && Folded(Split(t)) == Folded(Split(s)) + {Fold(name)}
  {
    hide Split, Fold, FoldDistinct, Terminated, Folded;
    SplitAppended(s, name);
    SplitOneIff(name);
    FoldedAppend(Split(s), name);
    DistinctAppend(Split(s), name);
    ListedIff(Split(s), name);
  }

  lemma {:induction false} RemoveStored(s: string, name: string)
    requires StoredList(s)
    ensures var t := Join(Without(Split(s), name));
            StoredList(t) && Folded(Split(t)) == Folded(Split(s)) - {Fold(name)}
  {
    hide Split, Fold, FoldDistinct, Terminated, Folded, Without, Join;
    SplitIsGood(s);
    WithoutGood(Split(s), name);
    WithoutDistinct(Split(s), name);
    WithoutIsRemoval(Split(s), name);
    SplitUndoesJoin(Without(Split(s), name));
  }

  lemma {:induction false} EmptyStored()
    ensures StoredList([]) && Folded(Split([])) == {}
  {
  }

  lemma {:induction false} DefaultFolds()
    ensures Fold("Default") == DEFAULT_GROUP
  {
  }

  lemma {:induction false} NewPlayerStored()
    ensures StoredList(NEW_PLAYER) && Folded(Split(NEW_PLAYER)) == {DEFAULT_GROUP}
  {
    hide Fold, Folded, Split;
    var name := "Default";
    DefaultFolds();
    assert NEW_PLAYER == name + [COMMA];
    SplitClosed(name);
    SplitWhole(name);
    FoldedNone();
    FoldedAppend([], name);
    assert [] + [name] == [name];
  }

  // ---------------------------------------------------------------- refinement

  predicate Refines(db: Db, q: Request) {
    var (after, answer) := Serve(db, q);
    Valid(after) && (Abstract(after), answer) == SetServe(Abstract(db), q)
  }

  lemma {:induction false} PlayerView(db: Db, id: SteamId, g: string)
    requires id in db.players
    ensures InGroup(db, id, g) <==> Fold(g) in Abstract(db).members[id]
  {
  }

  lemma {:induction false} GroupView(db: Db, g: string, permission: string)
    requires g != []
    ensures GroupHas(db, g, permission) <==>
            Fold(g) in db.groups && Fold(permission) in Abstract(db).grants[Fold(g)]
  {
  }

  lemma {:induction false} WithPlayerRefines(db: Db, id: SteamId)
    requires Valid(db)
    ensures Valid(WithPlayer(db, id))
    ensures Abstract(WithPlayer(db, id)) ==
            if id in db.players then Abstract(db)
            else Abstract(db).(members := Abstract(db).members[id := {DEFAULT_GROUP}])
  {
    hide Split, Folded, StoredList;
    NewPlayerStored();
  }

  /** Replacing one player's list. */
  lemma {:induction false} SetPlayer(db: Db, id: SteamId, s: string)
    requires Valid(db) && StoredList(s) && Folded(Split(s)) <= db.groups.Keys + {DEFAULT_GROUP}
    ensures var after := db.(players := db.players[id := s]);
            && Valid(after)
            && Abstract(after) == Abstract(db).(members := Abstract(db).members[id := Folded(Split(s))])
  {
    hide Split, Folded, StoredList;
  }

  /** Replacing one group's list. */
  lemma {:induction false} SetGroup(db: Db, f: string, s: string)
    requires Valid(db) && StoredList(s)
    ensures var after := db.(groups := db.groups[f := s]);
            && Valid(after)
            && Abstract(after) == Abstract(db).(grants := Abstract(db).grants[f := Folded(Split(s))])
  {
    hide Split, Folded, StoredList;
  }

  lemma {:induction false} JoinRefines(db: Db, id: SteamId, g: string)
    requires Valid(db) && GoodName(g)
    ensures Refines(db, Enlist(id, g))
  {
    hide Split, Folded, StoredList, Fold, GoodName, Lists;
    var known := WithPlayer(db, id);
    WithPlayerRefines(db, id);
    PlayerView(known, id, g);
    if GroupExists(known, g) && !InGroup(known, id, g) {
      AppendStored(known.players[id], g);
      SetPlayer(known, id, known.players[id] + (g + [COMMA]));
    }
  }

  lemma {:induction false} LeaveRefines(db: Db, id: SteamId, g: string)
    requires Valid(db)
    ensures Refines(db, Leave(id, g))
  {
    hide Split, Folded, StoredList, Fold, Lists, Join, Without;
    if id in db.players {
      PlayerView(db, id, g);
      RemoveStored(db.players[id], g);
      SetPlayer(db, id, Join(Without(Split(db.players[id]), g)));
    }
  }

  lemma {:induction false} CreateRefines(db: Db, g: string)
    requires Valid(db)
    ensures Refines(db, CreateGroup(g))
  {
    hide Split, Folded, StoredList, Fold;
    EmptyStored();
    SetGroup(db, Fold(g), []);
  }

  lemma {:induction false} AllowRefines(db: Db, g: string, permission: string)
    requires Valid(db) && GoodName(g) && GoodName(permission)
    ensures Refines(db, Allow(g, permission))
  {
    hide Split, Folded, StoredList, Fold, Lists;
    GroupView(db, g, permission);
    if GroupExists(db, g) && !GroupHas(db, g, permission) {
      AppendStored(db.groups[Fold(g)], permission);
      SetGroup(db, Fold(g), db.groups[Fold(g)] + (permission + [COMMA]));
    }
  }

  lemma {:induction false} ForbidRefines(db: Db, g: string, permission: string)
    requires Valid(db) && GoodName(g)
    ensures Refines(db, Forbid(g, permission))
  {
    hide Split, Folded, StoredList, Fold, Lists, Join, Without;
    GroupView(db, g, permission);
    if GroupExists(db, g) {
      RemoveStored(db.groups[Fold(g)], permission);
      SetGroup(db, Fold(g), Join(Without(GroupPermissions(db, g), permission)));
    }
  }

  lemma {:induction false} ExpelledPlayer(db: Db, id: SteamId, g: string)
    requires Valid(db) && id in db.players
    ensures var s := Expelled(db, g)[id];
            StoredList(s) && Folded(Split(s)) == Folded(Split(db.players[id])) - {Fold(g)}
  {
    hide Split, Folded, StoredList, Fold, Lists, Join, Without;
    PlayerView(db, id, g);
    RemoveStored(db.players[id], g);
  }

  lemma {:induction false} DropRefines(db: Db, g: string)
    requires Valid(db)
    ensures Refines(db, DropGroup(g))
  {
    hide Split, Folded, StoredList, Fold, Expelled;
    if GroupExists(db, g) {
      var after := RemoveGroup(db, g).0;
      assert after.players.Keys == db.players.Keys by {
        ExpelledKeys(db, g);
      }
      forall id | id in db.players
        ensures StoredList(after.players[id])
        ensures Folded(Split(after.players[id])) == Folded(Split(db.players[id])) - {Fold(g)}
      {
        ExpelledPlayer(db, id, g);
      }
      var ideal := SetServe(Abstract(db), DropGroup(g)).0;
      assert Abstract(after).members == ideal.members;
      assert Abstract(after).grants == ideal.grants;
      assert Valid(after);
    }
  }

  lemma {:induction false} ExpelledKeys(db: Db, g: string)
    ensures Expelled(db, g).Keys == db.players.Keys
  {
  }

  /** Strings refine sets: for good names every operation acts on the stored texts as its
      counterpart acts on sets of names without case, with the same answer, and keeps the
      tables consistent. */
  lemma {:induction false} ServeRefines(db: Db, q: Request)
    requires Valid(db) && GoodRequest(q)
    ensures Refines(db, q)
  {
    match q
    case Enlist(id, g) => JoinRefines(db, id, g);
    case Leave(id, g) => LeaveRefines(db, id, g);
    case CreateGroup(g) => CreateRefines(db, g);
    case DropGroup(g) => DropRefines(db, g);
    case Allow(g, permission) => AllowRefines(db, g, permission);
    case Forbid(g, permission) => ForbidRefines(db, g, permission);
  }

  function Run(db: Db, qs: seq<Request>): Db {
    if qs == [] then db else Serve(Run(db, qs[..|qs| - 1]), qs[|qs| - 1]).0
  }

  function SetRun(r: Roles, qs: seq<Request>): Roles {
    if qs == [] then r else SetServe(SetRun(r, qs[..|qs| - 1]), qs[|qs| - 1]).0
  }

  /** Over every run of requests with good names. */
  lemma {:induction false} RunRefines(db: Db, qs: seq<Request>)
    requires Valid(db) && forall i :: 0 <= i < |qs| ==> GoodRequest(qs[i])
    ensures Valid(Run(db, qs)) && Abstract(Run(db, qs)) == SetRun(Abstract(db), qs)
  {
    hide Valid, Abstract, Serve, SetServe, GoodRequest;
    if qs != [] {
      var n := |qs| - 1;
      RunRefines(db, qs[..n]);
      ServeRefines(Run(db, qs[..n]), qs[n]);
    }
  }

  // ---------------------------------------------------------------- what a request changes

  lemma {:induction false} InGroupView(db: Db, id: SteamId, g: string)
    ensures InGroup(db, id, g) <==> id in Abstract(db).members && Fold(g) in Abstract(db).members[id]
  {
    hide Split, Fold, Folded, Lists;
    if id in db.players {
      PlayerView(db, id, g);
    } else {
      ListsNone(g);
    }
  }

  lemma {:induction false} GroupHasView(db: Db, g: string, permission: string)
    ensures GroupHas(db, g, permission) <==>
            g != [] && Fold(g) in Abstract(db).grants && Fold(permission) in Abstract(db).grants[Fold(g)]
  {
    hide Split, Fold, Folded, Lists;
    if g != [] {
      GroupView(db, g, permission);
    } else {
      ListsNone(permission);
    }
  }

  /** Who is in which group after a request: enlisting adds the player to the group, and a player
      without a row to the default one, leaving and dropping a group remove what they name, and
      nothing else changes. */
  lemma {:induction false} MembersAfter(db: Db, q: Request, id: SteamId, g: string)
    requires Valid(db) && GoodRequest(q)
    ensures InGroup(Serve(db, q).0, id, g) <==>
            match q
            case Enlist(who, h) =>
              || InGroup(db, id, g)
              || (id == who && GroupExists(db, h) && Same(g, h))
              || (id == who && who !in db.players && Same(g, "Default"))
            case Leave(who, h) => InGroup(db, id, g) && !(id == who && GroupExists(db, h) && Same(g, h))
            case DropGroup(h) => InGroup(db, id, g) && !(GroupExists(db, h) && Same(g, h))
            case _ => InGroup(db, id, g)
  {
    hide Split, Fold, Folded, InGroup, Valid, Serve;
    var after := Serve(db, q).0;
    ServeRefines(db, q);
    InGroupView(db, id, g);
    InGroupView(after, id, g);
    DefaultFolds();
  }

  /** Which group has which permission after a request. */
  lemma {:induction false} GrantsAfter(db: Db, q: Request, g: string, permission: string)
    requires Valid(db) && GoodRequest(q)
    ensures GroupHas(Serve(db, q).0, g, permission) <==>
            match q
            case Allow(h, right) =>
              GroupHas(db, g, permission) || (GroupExists(db, h) && Same(g, h) && Same(permission, right))
            case Forbid(h, right) => GroupHas(db, g, permission) && !(Same(g, h) && Same(permission, right))
            case DropGroup(h) => GroupHas(db, g, permission) && !Same(g, h)
            case _ => GroupHas(db, g, permission)
  {
    hide Split, Folded, GroupHas, Valid, Serve;
    var after := Serve(db, q).0;
    ServeRefines(db, q);
    GroupHasView(db, g, permission);
    GroupHasView(after, g, permission);
    assert |Fold(g)| == |g| && |Fold(q.group)| == |q.group| > 0;
  }

  /** Which groups there are after a request. */
  lemma {:induction false} GroupsAfter(db: Db, q: Request, g: string)
    requires Valid(db) && GoodRequest(q)
    ensures GroupExists(Serve(db, q).0, g) <==>
            match q
            case CreateGroup(h) => GroupExists(db, g) || Same(g, h)
            case DropGroup(h) => GroupExists(db, g) && !Same(g, h)
            case _ => GroupExists(db, g)
  {
    hide Split, Fold, Folded, Valid, Serve;
    var after := Serve(db, q).0;
    ServeRefines(db, q);
    assert Fold(g) in Abstract(db).grants <==> Fold(g) in db.groups;
    assert Fold(g) in Abstract(after).grants <==> Fold(g) in after.groups;
  }

  /** A request is answered `Done` exactly when what it asks for is possible and not so already. */
  lemma {:induction false} DoneWhenNew(db: Db, q: Request)
    requires Valid(db) && GoodRequest(q)
    ensures Serve(db, q).1 == Done <==>
            match q
            case Enlist(who, h) =>
              && GroupExists(db, h) && !InGroup(db, who, h)
              && (who in db.players || !Same(h, "Default"))
            case Leave(who, h) => GroupExists(db, h) && InGroup(db, who, h)
            case CreateGroup(h) => !GroupExists(db, h)
            case DropGroup(h) => GroupExists(db, h)
            case Allow(h, right) => GroupExists(db, h) && !GroupHas(db, h, right)
            case Forbid(h, right) => GroupHas(db, h, right)
  {
    hide Split, Fold, Folded, InGroup, GroupHas, Valid, Serve;
    ServeRefines(db, q);
    DefaultFolds();
    match q
    case Enlist(who, h) => InGroupView(db, who, h);
    case Leave(who, h) => InGroupView(db, who, h);
    case Allow(h, right) => GroupHasView(db, h, right);
    case Forbid(h, right) => GroupHasView(db, h, right);
    case _ =>
  }

  // ---------------------------------------------------------------- who may do what

  predicate Permitted(r: Roles, id: SteamId, permission: string) {
    id in r.members && exists f :: f in r.members[id] && f in r.grants
                                   && (Fold(permission) in r.grants[f] || "*" in r.grants[f])
  }

  lemma {:induction false} StarFolds()
    ensures Fold("*") == "*"
  {
  }

  lemma {:induction false} GroupPermits(db: Db, g: string, permission: string)
    requires g != []
    ensures GroupHas(db, g, permission) || GroupHas(db, g, "*") <==>
            Fold(g) in db.groups
            && (Fold(permission) in Abstract(db).grants[Fold(g)] || "*" in Abstract(db).grants[Fold(g)])
  {
    hide GroupHas, Fold, Abstract;
    StarFolds();
    GroupView(db, g, permission);
    GroupView(db, g, "*");
  }

  /** `IsPlayerHasPermission` is decided by the sets alone. */
  lemma {:induction false} PlayerHasIsPermitted(db: Db, id: SteamId, permission: string)
    ensures PlayerHas(db, id, permission) <==> Permitted(Abstract(db), id, permission)
  {
    hide GroupHas, Fold, Split;
    if id in db.players {
      var names := Split(db.players[id]);
      SplitIsGood(db.players[id]);
      forall i | 0 <= i < |names|
        ensures Fold(names[i]) in Folded(names)
        ensures GroupHas(db, names[i], permission) || GroupHas(db, names[i], "*") <==>
                Fold(names[i]) in db.groups
                && (Fold(permission) in Abstract(db).grants[Fold(names[i])] || "*" in Abstract(db).grants[Fold(names[i])])
      {
        assert GoodName(names[i]);
        GroupPermits(db, names[i], permission);
      }
    }
  }

  /** After a group is removed nobody lists it, and what a player may do depends only on the
      groups that remain. */
  lemma {:induction false} RemovedGroupIsGone(db: Db, g: string, id: SteamId, permission: string)
    requires Valid(db) && GroupExists(db, g)
    ensures var after := RemoveGroup(db, g).0;
            && !InGroup(after, id, g) && !GroupExists(after, g)
            && (PlayerHas(after, id, permission) <==>
                id in db.players && exists f ::
                  && f in Abstract(db).members[id] && f != Fold(g) && f in db.groups
                  && (Fold(permission) in Abstract(db).grants[f] || "*" in Abstract(db).grants[f]))
  {
    hide Split, Folded, Fold, PlayerHas, StoredList, Expelled, Lists;
    var after := RemoveGroup(db, g).0;
    DropRefines(db, g);
    PlayerHasIsPermitted(after, id, permission);
    ExpelledKeys(db, g);
    if id in after.players {
      PlayerView(after, id, g);
      var r, q := Abstract(db), Abstract(after);
      assert q.members[id] == r.members[id] - {Fold(g)} && q.grants == r.grants - {Fold(g)};
      if f :| f in r.members[id] && f != Fold(g) && f in db.groups
              && (Fold(permission) in r.grants[f] || "*" in r.grants[f]) {
        assert f in q.members[id] && f in q.grants && q.grants[f] == r.grants[f];
      }
      if f :| f in q.members[id] && f in q.grants && (Fold(permission) in q.grants[f] || "*" in q.grants[f]) {
        assert f in r.members[id] && f != Fold(g) && r.grants[f] == q.grants[f];
      }
    } else {
      ListsNone(g);
    }
  }

  lemma {:induction false} CommaTextSplits()
    ensures Split(NEW_PLAYER) == ["Default"]
    ensures Split(NEW_PLAYER + ("a,b" + [COMMA])) == ["Default", "a", "b"]
  {
    hide Split;
    SplitAppended("Default,", "a,b");
    SplitClosed("Default");
    SplitWhole("Default");
    assert "Default" + [COMMA] == "Default,";
    SplitConcat("a", "b");
    assert "a" + ([COMMA] + "b") == "a,b";
    SplitWhole("a");
    SplitWhole("b");
  }

  /** A name with a comma is a different matter: adding a player to the group "a,b" succeeds, and
      the player is then listed in the groups a and b, not in "a,b". */
  lemma {:induction false} CommaNameCounterexample(db: Db, id: SteamId)
    requires id !in db.players && !GroupExists(db, "a,b")
    ensures var (made, answer) := AddGroup(db, "a,b");
            var (after, added) := AddPlayerToGroup(made, id, "a,b");
            && answer == Done && added == Done
            && PlayerGroups(after, id) == ["Default", "a", "b"]
            && InGroup(after, id, "a") && InGroup(after, id, "b") && !InGroup(after, id, "a,b")
  {
    hide Split;
    CommaTextSplits();
    var made := AddGroup(db, "a,b").0;
    var known := WithPlayer(made, id);
    assert |Fold("Default")| == 7 && |Fold("a,b")| == 3 && |Fold("a")| == 1 && |Fold("b")| == 1;
    assert PlayerGroups(known, id) == ["Default"];
    assert !InGroup(known, id, "a,b");
    var after := AddPlayerToGroup(made, id, "a,b").0;
    assert after.players[id] == NEW_PLAYER + ("a,b" + [COMMA]);
    var names := PlayerGroups(after, id);
    assert names[1] == "a" && names[2] == "b";
  }

  // ---------------------------------------------------------------- the database object

  class Database {
    var players: map<SteamId, string>
    var groups: map<string, string>

    ghost function View(): Db
      reads this
    {
      Db(players, groups)
    }

    /** The groups a new database starts with. */
    constructor ()
      ensures View() == Db(map[], map["admins" := "*,", "default" := ""])
      ensures Valid(View())
    {
      players := map[];
      groups := map["admins" := "*,", "default" := ""];
      new;
      EmptyStored();
      StarStored();
    }

    method GetPlayerGroups(id: SteamId) returns (names: seq<string>)
      ensures names == PlayerGroups(View(), id)
    {
      names := [];
      if id in players {
        names := ParseIntoArray(players[id]);
      }
    }

    method GetGroupPermissions(g: string) returns (names: seq<string>)
      ensures names == GroupPermissions(View(), g)
    {
      names := [];
      if g != [] && Fold(g) in groups {
        names := ParseIntoArray(groups[Fold(g)]);
      }
    }

    /** The search loops of `IsPlayerInGroup` and `IsGroupHasPermission`. */
    static method Search(names: seq<string>, name: string) returns (found: bool)
      ensures found <==> Lists(names, name)
    {
      var i := 0;
      while i < |names|
        invariant i <= |names|
        invariant forall k :: 0 <= k < i ==> !Same(names[k], name)
      {
        if Same(names[i], name) {
          return true;
        }
        i := i + 1;
      }
      return false;
    }

    method IsPlayerInGroup(id: SteamId, g: string) returns (found: bool)
      ensures found <==> InGroup(View(), id, g)
    {
      var names := GetPlayerGroups(id);
      found := Search(names, g);
    }

    method IsGroupHasPermission(g: string, permission: string) returns (found: bool)
      ensures found <==> GroupHas(View(), g, permission)
    {
      if Fold(g) !in groups {
        return false;
      }
      var names := GetGroupPermissions(g);
      found := Search(names, permission);
    }

    method IsPlayerHasPermission(id: SteamId, permission: string) returns (found: bool)
      ensures found <==> PlayerHas(View(), id, permission)
      ensures found <==> Permitted(Abstract(View()), id, permission)
    {
      hide GroupHas, Permitted, Abstract;
      PlayerHasIsPermitted(View(), id, permission);
      var names := GetPlayerGroups(id);
      var i := 0;
      while i < |names|
        invariant i <= |names|
        invariant forall k :: 0 <= k < i ==>
                    !GroupHas(View(), names[k], permission) && !GroupHas(View(), names[k], "*")
      {
        var has := IsGroupHasPermission(names[i], permission);
        var all := IsGroupHasPermission(names[i], "*");
        if has || all {
          return true;
        }
        i := i + 1;
      }
      return false;
    }

    method EnlistPlayer(id: SteamId, g: string) returns (answer: Answer)
      modifies this`players
      ensures (View(), answer) == AddPlayerToGroup(old(View()), id, g)
    {
      if id !in players {
        players := players[id := NEW_PLAYER];
      }
      if Fold(g) !in groups {
        return GroupMissing;
      }
      var member := IsPlayerInGroup(id, g);
      if member {
        return AlreadyAdded;
      }
      players := players[id := players[id] + (g + [COMMA])];
      return Done;
    }

    /** The loop that joins every name but one. */
    static method JoinOthers(names: seq<string>, name: string) returns (text: string)
      ensures text == Join(Without(names, name))
    {
      text := [];
      var i := 0;
      while i < |names|
        invariant i <= |names|
        invariant text == Join(Without(names[..i], name))
      {
        assert names[..i + 1][..i] == names[..i];
        if !Same(names[i], name) {
          var before := Without(names[..i], name);
          assert (before + [names[i]])[..|before|] == before;
          text := text + (names[i] + [COMMA]);
        } else {
          assert Without(names[..i], name) + [] == Without(names[..i], name);
        }
        i := i + 1;
      }
      assert names[..i] == names;
    }

    method ExpelPlayer(id: SteamId, g: string) returns (answer: Answer)
      modifies this`players
      ensures (View(), answer) == RemovePlayerFromGroup(old(View()), id, g)
    {
      if id !in players || Fold(g) !in groups {
        return PlayerOrGroupMissing;
      }
      var member := IsPlayerInGroup(id, g);
      if !member {
        return NotInGroup;
      }
      var names := GetPlayerGroups(id);
      var text := JoinOthers(names, g);
      players := players[id := text];
      return Done;
    }

    method CreateNewGroup(g: string) returns (answer: Answer)
      modifies this`groups
      ensures (View(), answer) == AddGroup(old(View()), g)
    {
      if Fold(g) in groups {
        return GroupPresent;
      }
      groups := groups[Fold(g) := []];
      return Done;
    }

    /** The members, in whatever order the table yields them. */
    method GetGroupMembers(g: string) returns (members: seq<SteamId>)
      ensures forall id :: id in members <==> InGroup(View(), id, g)
      ensures forall i :: 0 <= i < |members| ==> members[i] in players
      ensures forall i, j :: 0 <= i < j < |members| ==> members[i] != members[j]
    {
      hide Lists;
      ListsNone(g);
      members := [];
      var todo := players.Keys;
      while todo != {}
        invariant todo <= players.Keys
        invariant forall id :: id in members <==> id in players.Keys - todo && InGroup(View(), id, g)
        invariant forall i :: 0 <= i < |members| ==> members[i] in players
        invariant forall i, j :: 0 <= i < j < |members| ==> members[i] != members[j]
        decreases |todo|
      {
        var id :| id in todo;
        todo := todo - {id};
        var member := IsPlayerInGroup(id, g);
        if member {
          members := members + [id];
        }
      }
    }

    method DeleteGroup(g: string) returns (answer: Answer)
      modifies this
      ensures (View(), answer) == RemoveGroup(old(View()), g)
    {
      hide Lists, Join, Without, Split;
      if Fold(g) !in groups {
        return GroupMissing;
      }
      ghost var db := View();
      var members := GetGroupMembers(g);
      var i := 0;
      while i < |members|
        invariant i <= |members| && groups == db.groups
        invariant players.Keys == db.players.Keys
        invariant forall id :: id in players ==>
                    players[id] == if id in members[..i] then Expelled(db, g)[id] else db.players[id]
      {
        assert members[i] in members && members[i] !in members[..i];
        assert players[members[i]] == db.players[members[i]];
        var _ := ExpelPlayer(members[i], g);
        i := i + 1;
      }
      assert members[..i] == members;
      assert players == Expelled(db, g);
      groups := groups - {Fold(g)};
      return Done;
    }

    method GrantPermission(g: string, permission: string) returns (answer: Answer)
      modifies this`groups
      ensures (View(), answer) == Grant(old(View()), g, permission)
    {
      if Fold(g) !in groups {
        return GroupMissing;
      }
      var has := IsGroupHasPermission(g, permission);
      if has {
        return AlreadyGranted;
      }
      groups := groups[Fold(g) := groups[Fold(g)] + (permission + [COMMA])];
      return Done;
    }

    method RevokePermission(g: string, permission: string) returns (answer: Answer)
      modifies this`groups
      ensures (View(), answer) == Revoke(old(View()), g, permission)
    {
      if Fold(g) !in groups {
        return GroupMissing;
      }
      var has := IsGroupHasPermission(g, permission);
      if !has {
        return NotGranted;
      }
      var names := GetGroupPermissions(g);
      var text := JoinOthers(names, permission);
      groups := groups[Fold(g) := text];
      return Done;
    }
  }

  lemma {:induction false} StarStored()
    ensures StoredList("*,")
  {
  }
}
