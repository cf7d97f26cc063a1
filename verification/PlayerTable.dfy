/** The Players table as text: a world save followed by a restart. */
module PlayerTable {
  import opened Names
  import opened Time
  import opened Players
  import opened Protection
  import opened Invariants
  import opened Durability
  import opened Timestamps

  datatype Row = Row(tribe: Tribe, start: string, lastLogin: string, level: int, flag: int)

  predicate Writable(z: Zone, p: Player) {
    && p.start >= 0 && Representable(z, p.start / TICKS_PER_SECOND)
    && p.lastLogin >= 0 && Representable(z, p.lastLogin / TICKS_PER_SECOND)
  }

  predicate AllWritable(z: Zone, all: seq<Player>) {
    forall i :: 0 <= i < |all| ==> Writable(z, all[i])
  }

  /** `UpdatePlayerDB`. */
  function WriteRow(z: Zone, p: Player): Row
    requires Writable(z, p)
  {
    Row(p.tribe, GetTimestamp(z, p.start), GetTimestamp(z, p.lastLogin), p.level, p.flag)
  }

  predicate Readable(z: Zone, r: Row) {
    GetDateTime(z, r.start).Some? && GetDateTime(z, r.lastLogin).Some?
  }

  function ReadRow(z: Zone, id: Id, r: Row): Player
    requires Readable(z, r)
  {
    Player(id, r.tribe, GetDateTime(z, r.start).value, GetDateTime(z, r.lastLogin).value, r.level, r.flag)
  }

  /** INSERT OR REPLACE of every record in memory. */
  function SaveRows(z: Zone, rows: map<Id, Row>, all: seq<Player>): map<Id, Row>
    requires AllWritable(z, all)
  {
    rows + map id | id in Ids(all) :: WriteRow(z, all[Find(all, id)])
  }

  predicate AllReadable(z: Zone, rows: map<Id, Row>) {
    forall id :: id in rows ==> Readable(z, rows[id])
  }

  /** The table as Protection.dfy sees it. */
  function Typed(z: Zone, rows: map<Id, Row>): map<Id, Player>
    requires AllReadable(z, rows)
  {
    map id | id in rows :: ReadRow(z, id, rows[id])
  }

  /** The rows that `Last_Login_DateTime > date(...)` selects. */
  function Kept(rows: map<Id, Row>, cutoff: Date): set<Id>
    requires FourDigits(cutoff)
  {
    set id | id in rows && Less(DateText(cutoff), rows[id].lastLogin)
  }

  /** The players in memory after `LoadDB`. */
  function LoadTable(z: Zone, rows: map<Id, Row>, cutoff: Date): seq<Player>
    requires AllReadable(z, rows) && FourDigits(cutoff)
  {
    Load(Typed(z, rows), Kept(rows, cutoff))
  }

  lemma {:induction false} RowRoundTrip(z: Zone, p: Player)
    requires Writable(z, p)
    ensures Readable(z, WriteRow(z, p)) && ReadRow(z, p.id, WriteRow(z, p)) == Persist(p)
  {
    hide GetTimestamp, GetDateTime, Representable;
    TimestampRoundTrip(z, p.start);
    TimestampRoundTrip(z, p.lastLogin);
  }

  lemma {:induction false} SavedRow(z: Zone, rows: map<Id, Row>, all: seq<Player>, id: Id)
    requires AllWritable(z, all)
    ensures var saved := SaveRows(z, rows, all);
            && (id in saved <==> id in rows || Known(all, id))
            && (Known(all, id) ==> saved[id] == WriteRow(z, all[Find(all, id)]))
            && (!Known(all, id) && id in rows ==> saved[id] == rows[id])
  {
    hide WriteRow, Writable;
  }

  lemma {:induction false} SavedRowReads(z: Zone, rows: map<Id, Row>, all: seq<Player>, id: Id)
    requires AllWritable(z, all) && AllReadable(z, rows) && id in SaveRows(z, rows, all)
    ensures var r := SaveRows(z, rows, all)[id];
            && Readable(z, r)
            && ReadRow(z, id, r) == if Known(all, id) then Persist(all[Find(all, id)]) else ReadRow(z, id, rows[id])
  {
    hide WriteRow, ReadRow, Persist, Readable, Writable, SaveRows;
    SavedRow(z, rows, all, id);
    if Known(all, id) {
      RowRoundTrip(z, all[Find(all, id)]);
    }
  }

  /** Writing the texts is the typed save of Protection.dfy. */
  lemma {:induction false} SaveIsTyped(z: Zone, rows: map<Id, Row>, all: seq<Player>)
    requires AllWritable(z, all) && AllReadable(z, rows)
    ensures AllReadable(z, SaveRows(z, rows, all))
    ensures Typed(z, SaveRows(z, rows, all)) == Typed(z, rows) + Stored(all)
  {
    hide WriteRow, ReadRow, Persist, Readable, Writable, SaveRows, Find, Known;
    forall id: Id {
      SavedRow(z, rows, all, id);
    }
    forall id | id in SaveRows(z, rows, all) {
      SavedRowReads(z, rows, all, id);
    }
  }

  function LoginDay(z: Zone, p: Player): Date {
    z.local(p.lastLogin / TICKS_PER_SECOND).date
  }

  lemma {:induction false} KeptByDay(z: Zone, p: Player, cutoff: Date)
    requires Writable(z, p) && FourDigits(cutoff)
    ensures Less(DateText(cutoff), WriteRow(z, p).lastLogin) <==> !Earlier(LoginDay(z, p), cutoff)
  {
    hide DateText, ClockText;
    var ms := Millis(p.lastLogin);
    FilterIsByDay(cutoff, z.local(p.lastLogin / TICKS_PER_SECOND), ms);
  }

  /** Rows of players that are no longer in memory and would still be selected. */
  predicate Stale(rows: map<Id, Row>, all: seq<Player>, cutoff: Date)
    requires FourDigits(cutoff)
  {
    exists id :: id in Kept(rows, cutoff) && !Known(all, id)
  }

  ghost predicate ReloadsExactly(z: Zone, rows: map<Id, Row>, all: seq<Player>, cutoff: Date)
    requires AllWritable(z, all) && AllReadable(z, rows) && FourDigits(cutoff)
  {
    SaveIsTyped(z, rows, all);
    forall q :: q in LoadTable(z, SaveRows(z, rows, all), cutoff) <==>
                exists i :: 0 <= i < |all| && !Earlier(LoginDay(z, all[i]), cutoff) && q == Persist(all[i])
  }

  lemma {:induction false} ReloadedPlayer(z: Zone, rows: map<Id, Row>, all: seq<Player>, cutoff: Date, q: Player)
    requires AllWritable(z, all) && AllReadable(z, rows) && FourDigits(cutoff) && UniqueIds(all)
    ensures AllReadable(z, SaveRows(z, rows, all))
    ensures Known(all, q.id) ==>
              (q in LoadTable(z, SaveRows(z, rows, all), cutoff) <==>
               exists i :: 0 <= i < |all| && !Earlier(LoginDay(z, all[i]), cutoff) && q == Persist(all[i]))
    ensures !Known(all, q.id) ==>
              (q in LoadTable(z, SaveRows(z, rows, all), cutoff) <==>
               q.id in Kept(rows, cutoff) && q == ReadRow(z, q.id, rows[q.id]))
  {
    hide WriteRow, ReadRow, Readable, Writable, SaveRows, Load, LoginDay, Less, DateText, Earlier;
    SaveIsTyped(z, rows, all);
    SavedRow(z, rows, all, q.id);
    if Known(all, q.id) {
      SavedRowReads(z, rows, all, q.id);
    }
    LoadedFromTable(z, SaveRows(z, rows, all), cutoff, q);
    if Known(all, q.id) {
      var k := Find(all, q.id);
      KeptByDay(z, all[k], cutoff);
      assert forall i :: 0 <= i < |all| && q == Persist(all[i]) ==> i == k;
    }
  }

  lemma {:induction false} LoadedFromTable(z: Zone, rows: map<Id, Row>, cutoff: Date, q: Player)
    requires AllReadable(z, rows) && FourDigits(cutoff)
    ensures q in LoadTable(z, rows, cutoff) <==>
            q.id in rows && Less(DateText(cutoff), rows[q.id].lastLogin) && q == ReadRow(z, q.id, rows[q.id])
  {
    hide GetDateTime, Load, Less, DateText, Readable;
    Loaded(Typed(z, rows), Kept(rows, cutoff), q);
  }

  /** Save, then restart: what comes back is exactly the records in memory whose last login is
      not before the cutoff day, equal but for times cut to milliseconds, if and only if the
      table holds no selectable row of a player that had dropped out of memory. */
  lemma {:induction false} SaveThenRestart(z: Zone, rows: map<Id, Row>, all: seq<Player>, cutoff: Date)
    requires AllWritable(z, all) && AllReadable(z, rows) && FourDigits(cutoff) && UniqueIds(all)
    ensures ReloadsExactly(z, rows, all, cutoff) <==> !Stale(rows, all, cutoff)
  {
    hide GetTimestamp, GetDateTime, LoadTable, DateText, SaveRows, LoginDay;
    SaveIsTyped(z, rows, all);
    forall q: Player {
      ReloadedPlayer(z, rows, all, cutoff, q);
    }
    if Stale(rows, all, cutoff) {
      var id :| id in Kept(rows, cutoff) && !Known(all, id);
      var q := ReadRow(z, id, rows[id]);
      assert q in LoadTable(z, SaveRows(z, rows, all), cutoff);
      assert forall i :: 0 <= i < |all| ==> Persist(all[i]).id != id;
    }
  }

  lemma {:induction false} KeptShrinks(rows: map<Id, Row>, first: Date, later: Date)
    requires FourDigits(first) && FourDigits(later) && !Earlier(later, first)
    ensures Kept(rows, later) <= Kept(rows, first)
  {
    LessDates(first, later);
    forall id | id in Kept(rows, later)
      ensures id in Kept(rows, first)
    {
      if first != later {
        LessTransitive(DateText(first), DateText(later), rows[id].lastLogin);
      }
    }
  }

  /** While memory holds every row that a cutoff selects, a save and restart with this cutoff or
      a later one is exact. */
  lemma {:induction false} LaterCutoffIsExact(z: Zone, rows: map<Id, Row>, all: seq<Player>, first: Date, later: Date)
    requires AllWritable(z, all) && AllReadable(z, rows) && UniqueIds(all)
    requires FourDigits(first) && FourDigits(later) && !Earlier(later, first)
    requires forall id :: id in Kept(rows, first) ==> Known(all, id)
    ensures ReloadsExactly(z, rows, all, later)
  {
    hide ReloadsExactly, Kept;
    KeptShrinks(rows, first, later);
    SaveThenRestart(z, rows, all, later);
  }

  // ---------------------------------------------------------------- whole runs

  /** The plugin, its table as text, and the cutoff day of the last start. */
  datatype Server = Server(state: State, table: map<Id, Row>, cutoff: Date)

  /** A save writes texts, a restart loads the rows that the day filter selects, and no other
      event touches the table. */
  predicate Steps(z: Zone, v: Server, e: Event, w: Server) {
    match e
    case SaveEvent =>
      AllWritable(z, v.state.all) && w == Server(SaveWorld(v.state), SaveRows(z, v.table, v.state.all), v.cutoff)
    case RestartEvent(cfg, kept, now) =>
      && FourDigits(w.cutoff)
      && kept == Kept(v.table, w.cutoff)
      && w == Server(Reboot(v.state, cfg, kept, now), v.table, w.cutoff)
    case _ => w == v.(state := Next(v.state, e))
  }

  predicate IsRun(z: Zone, run: seq<Server>, es: seq<Event>) {
    && |run| == |es| + 1
    && forall k :: 0 <= k < |es| ==> Steps(z, run[k], es[k], run[k + 1])
  }

  /** The text table is the table of the typed model, and a row whose player is not in memory has
      a login day before the cutoff of the last start. */
  predicate InStep(z: Zone, v: Server) {
    && Valid(v.state)
    && FourDigits(v.cutoff)
    && AllReadable(z, v.table)
    && Typed(z, v.table) == v.state.rows
    && forall id :: id in Kept(v.table, v.cutoff) ==> Known(v.state.all, id)
  }

  lemma {:induction false} StaysKnown(s: State, e: Event, id: Id)
    requires !e.RestartEvent? && Known(s.all, id)
    ensures Known(Next(s, e).all, id)
  {
    var i :| 0 <= i < |s.all| && s.all[i].id == id;
    assert Next(s, e).all[i].id == id;
  }

  lemma {:induction false} SaveInStep(z: Zone, v: Server, w: Server)
    requires InStep(z, v) && Steps(z, v, SaveEvent, w)
    ensures InStep(z, w)
  {
    hide WriteRow, Readable, Writable, ReadRow, Valid, Load, SaveRows, Less, DateText;
    NextValid(v.state, SaveEvent);
    SaveIsTyped(z, v.table, v.state.all);
    forall id | id in Kept(w.table, w.cutoff)
      ensures Known(w.state.all, id)
    {
      SavedRow(z, v.table, v.state.all, id);
    }
  }

  lemma {:induction false} RestartInStep(z: Zone, v: Server, e: Event, w: Server)
    requires e.RestartEvent? && InStep(z, v) && Steps(z, v, e, w)
    ensures InStep(z, w) && w.state.all == LoadTable(z, v.table, w.cutoff)
  {
    hide WriteRow, Readable, Writable, ReadRow, Load, SaveRows, Less, DateText;
    NextValid(v.state, e);
    forall id | id in Kept(w.table, w.cutoff)
      ensures Known(w.state.all, id)
    {
      assert id in Typed(z, v.table);
      Loaded(v.state.rows, e.kept, v.state.rows[id]);
    }
  }

  lemma {:induction false} OtherInStep(z: Zone, v: Server, e: Event, w: Server)
    requires !e.RestartEvent? && !e.SaveEvent? && InStep(z, v) && Steps(z, v, e, w)
    ensures InStep(z, w)
  {
    hide Valid, Kept, AllReadable, Typed, Next;
    NextValid(v.state, e);
    OnlySavesWrite(v.state, e);
    forall id | id in Kept(w.table, w.cutoff)
      ensures Known(w.state.all, id)
    {
      StaysKnown(v.state, e, id);
    }
  }

  /** Every state of every run from a first start on an empty table is in step. */
  lemma {:induction false} RunInStep(z: Zone, run: seq<Server>, es: seq<Event>, cfg: Config, now: int)
    requires IsRun(z, run, es) && run[0] == Server(Initial(cfg, now), map[], run[0].cutoff)
    requires FourDigits(run[0].cutoff)
    ensures InStep(z, run[|es|])
  {
    if es == [] {
      RunValid(cfg, now, []);
    } else {
      hide InStep, Steps;
      var n := |es| - 1;
      RunInStep(z, run[..|es|], es[..n], cfg, now);
      assert Steps(z, run[n], es[n], run[n + 1]);
      match es[n]
      case SaveEvent => SaveInStep(z, run[n], run[n + 1]);
      case RestartEvent(_, _, _) => RestartInStep(z, run[n], es[n], run[n + 1]);
      case _ => OtherInStep(z, run[n], es[n], run[n + 1]);
    }
  }

  /** At any point of any run, a save and a restart with a cutoff day not before that of the last
      start bring back exactly the records in memory that pass the filter. */
  lemma {:induction false} EveryRestartIsExact(z: Zone, run: seq<Server>, es: seq<Event>, cfg: Config, now: int,
                                               later: Date)
    requires IsRun(z, run, es) && run[0] == Server(Initial(cfg, now), map[], run[0].cutoff)
    requires FourDigits(run[0].cutoff) && FourDigits(later) && !Earlier(later, run[|es|].cutoff)
    requires AllWritable(z, run[|es|].state.all)
    ensures AllReadable(z, run[|es|].table)
    ensures ReloadsExactly(z, run[|es|].table, run[|es|].state.all, later)
  {
    hide Steps, Kept, ReloadsExactly, Earlier;
    RunInStep(z, run, es, cfg, now);
    var v := run[|es|];
    LaterCutoffIsExact(z, v.table, v.state.all, v.cutoff, later);
  }
}
