/** The message throttle of one player over one online session. */
module Session {
  import opened Options
  import opened Time
  import opened Players
  import opened Protection
  import opened Invariants

  /** Events after which the player is still online. */
  predicate Stays(e: Event, id: Id) {
    !(e.LogoutEvent? && e.id == id) && !e.RestartEvent?
  }

  function NextMessage(s: State, id: Id): int
    requires IsOnline(s.online, id)
  {
    s.online[FindOnline(s.online, id)].nextMessage
  }

  /** A question of the hook whether a message is due, and the interval in force then. */
  datatype Question = Question(at: int, interval: int)

  predicate AsksAbout(e: Event, id: Id) {
    e.NotifyEvent? && e.id == id
  }

  /** The questions about the player in a run. */
  function Asked(s: State, es: seq<Event>, id: Id): seq<Question> {
    if es == [] then []
    else
      var n := |es| - 1;
      Asked(s, es[..n], id)
      + (if AsksAbout(es[n], id) then [Question(es[n].now, RunAll(s, es[..n]).cfg.messageInterval)] else [])
  }

  /** The deadline that the last question answered "ready" leaves. */
  function Deadline(ready: seq<Question>, first: int): int {
    if ready == [] then first
    else
      var last := ready[|ready| - 1];
      last.at + last.interval * TICKS_PER_SECOND
  }

  /** The questions that a gate with nothing but these questions answers "ready". */
  function Passed(asked: seq<Question>, first: int): seq<Question> {
    if asked == [] then []
    else
      var n := |asked| - 1;
      var before := Passed(asked[..n], first);
      before + (if Due(Deadline(before, first), asked[n].at) then [asked[n]] else [])
  }

  lemma {:induction false} PassedMore(asked: seq<Question>, q: Question, first: int)
    ensures var before := Passed(asked, first);
            Passed(asked + [q], first) == if Due(Deadline(before, first), q.at) then before + [q] else before
  {
    assert (asked + [q])[..|asked|] == asked;
  }

  /** Each ready answer is more than the interval in force at the one before it, less a second,
      after that one. */
  predicate Spaced(ready: seq<Question>) {
    forall i :: 0 < i < |ready| ==> ready[i].at - ready[i - 1].at > (ready[i - 1].interval - 1) * TICKS_PER_SECOND
  }

  lemma {:induction false} PassedSpaced(asked: seq<Question>, first: int)
    ensures Spaced(Passed(asked, first))
  {
    hide Due;
    if asked != [] {
      var n := |asked| - 1;
      var before := Passed(asked[..n], first);
      PassedSpaced(asked[..n], first);
      DueExactly(Deadline(before, first), asked[n].at);
    }
  }

  lemma {:induction false} AtIndex(online: seq<OnlinePlayer>, id: Id, k: nat)
    requires UniqueOnline(online) && k < |online| && online[k].data.id == id
    ensures IsOnline(online, id) && FindOnline(online, id) == k
  {
  }

  /** Every player of `before` is found at the same place with the same deadline. */
  predicate SameMessages(before: seq<OnlinePlayer>, after: seq<OnlinePlayer>) {
    && |before| <= |after|
    && forall k :: 0 <= k < |before| ==>
         after[k].data.id == before[k].data.id && after[k].nextMessage == before[k].nextMessage
  }

  lemma {:induction false} OthersKeepMessages(s: State, e: Event)
    requires !e.LogoutEvent? && !e.NotifyEvent? && !e.RestartEvent?
    ensures SameMessages(s.online, Next(s, e).online)
  {
    hide Login, Tick, Reload;
    match e
    case LoginEvent(id, team, now, memberOf) => LoginKeepsMessages(s, id, team, now, memberOf);
    case TickEvent(now, sights, current) => TickKeepsMessages(s, now, sights, current);
    case ReloadEvent(cfg, now) => ReloadKeepsMessages(s, cfg, now);
    case _ =>
  }

  lemma {:induction false} LoginKeepsMessages(s: State, id: Id, team: Tribe, now: int, groups: seq<string>)
    ensures SameMessages(s.online, Login(s, id, team, now, groups).online)
  {
  }

  lemma {:induction false} TickKeepsMessages(s: State, now: int, sights: map<Id, Sight>, current: Groups)
    ensures SameMessages(s.online, Tick(s, now, sights, current).online)
  {
  }

  lemma {:induction false} ReloadKeepsMessages(s: State, cfg: Option<Config>, now: int)
    ensures SameMessages(s.online, Reload(s, cfg, now).online)
  {
  }

  lemma {:induction false} DroppedUnique(online: seq<OnlinePlayer>, g: nat, less: seq<OnlinePlayer>)
    requires UniqueOnline(online) && g < |online|
    requires less == online[..g] + online[g + 1..]
    ensures UniqueOnline(less)
    ensures forall k :: 0 <= k < |online| && k != g ==> less[if k < g then k else k - 1] == online[k]
  {
  }

  lemma {:induction false} RemovedKeepsMessage(online: seq<OnlinePlayer>, gone: Id, id: Id)
    requires UniqueOnline(online) && IsOnline(online, id) && gone != id
    ensures var less := Removed(online, gone);
            && IsOnline(less, id)
            && less[FindOnline(less, id)].nextMessage == online[FindOnline(online, id)].nextMessage
  {
    hide UniqueOnline, FindOnline;
    if IsOnline(online, gone) {
      var k, g := FindOnline(online, id), FindOnline(online, gone);
      var less := Removed(online, gone);
      DroppedUnique(online, g, less);
      AtIndex(less, id, if k < g then k else k - 1);
    }
  }

  lemma {:induction false} NotifyMovesMessage(s: State, asked: Id, now: int, id: Id)
    requires Valid(s) && IsOnline(s.online, id)
    ensures var t := Notify(s, asked, now);
            && IsOnline(t.online, id)
            && NextMessage(t, id) ==
               if asked == id && Due(NextMessage(s, id), now)
               then now + s.cfg.messageInterval * TICKS_PER_SECOND
               else NextMessage(s, id)
  {
    NotifyValid(s, asked, now);
    AtIndex(Notify(s, asked, now).online, id, FindOnline(s.online, id));
  }

  lemma {:induction false} NextKeepsDeadline(s: State, e: Event, id: Id)
    requires Valid(s) && IsOnline(s.online, id) && Stays(e, id)
    ensures var t := Next(s, e);
            && Valid(t) && IsOnline(t.online, id)
            && NextMessage(t, id) ==
               if AsksAbout(e, id) && Due(NextMessage(s, id), e.now)
               then e.now + s.cfg.messageInterval * TICKS_PER_SECOND
               else NextMessage(s, id)
  {
    hide Valid, Login, Tick, Disable, RemoveProtection, ResetProtection, AddProtection, SetTribePve, Reload, SaveWorld, Notify;
    NextValid(s, e);
    ValidUnique(s);
    ValidUnique(Next(s, e));
    if e.LogoutEvent? {
      RemovedKeepsMessage(s.online, e.id, id);
    } else if e.NotifyEvent? {
      NotifyMovesMessage(s, e.id, e.now, id);
    } else {
      OthersKeepMessages(s, e);
      AtIndex(Next(s, e).online, id, FindOnline(s.online, id));
    }
  }

  lemma {:induction false} ValidUnique(s: State)
    requires Valid(s)
    ensures UniqueOnline(s.online)
  {
  }

  /** Whatever happens in between, reloads included, the deadline of an online player is the one
      left by the questions about that player alone. */
  lemma {:induction false} SessionIsThrottled(s: State, es: seq<Event>, id: Id)
    requires Valid(s) && IsOnline(s.online, id)
    requires forall k :: 0 <= k < |es| ==> Stays(es[k], id)
    ensures var t := RunAll(s, es);
            && Valid(t) && IsOnline(t.online, id)
            && NextMessage(t, id) == Deadline(Passed(Asked(s, es, id), NextMessage(s, id)), NextMessage(s, id))
  {
    hide Next, Valid, NextMessage, Due, Passed;
    if es == [] {
      NothingPassed(NextMessage(s, id));
    } else {
      var n := |es| - 1;
      SessionIsThrottled(s, es[..n], id);
      var t := RunAll(s, es[..n]);
      NextKeepsDeadline(t, es[n], id);
      if AsksAbout(es[n], id) {
        PassedMore(Asked(s, es[..n], id), Question(es[n].now, t.cfg.messageInterval), NextMessage(s, id));
      } else {
        assert Asked(s, es, id) == Asked(s, es[..n], id);
      }
    }
  }

  lemma {:induction false} NothingPassed(first: int)
    ensures Passed([], first) == []
  {
  }

  /** The questions of a run that the state answers "ready". */
  function Answers(s: State, es: seq<Event>, id: Id): seq<Question> {
    if es == [] then []
    else
      var n := |es| - 1;
      var t := RunAll(s, es[..n]);
      Answers(s, es[..n], id)
      + (if AsksAbout(es[n], id) && MessageReady(t.online, id, es[n].now)
         then [Question(es[n].now, t.cfg.messageInterval)] else [])
  }

  lemma {:induction false} AnswersArePassed(s: State, es: seq<Event>, id: Id)
    requires Valid(s) && IsOnline(s.online, id)
    requires forall k :: 0 <= k < |es| ==> Stays(es[k], id)
    ensures Answers(s, es, id) == Passed(Asked(s, es, id), NextMessage(s, id))
  {
    hide Next, Valid, Due, Passed;
    if es == [] {
      NothingPassed(NextMessage(s, id));
    } else {
      var n := |es| - 1;
      AnswersArePassed(s, es[..n], id);
      SessionIsThrottled(s, es[..n], id);
      if AsksAbout(es[n], id) {
        PassedMore(Asked(s, es[..n], id), Question(es[n].now, RunAll(s, es[..n]).cfg.messageInterval), NextMessage(s, id));
      } else {
        assert Asked(s, es, id) == Asked(s, es[..n], id);
      }
    }
  }

  /** In one online session two ready answers for a player in a row lie more than the interval
      in force at the first, less a second, apart, whatever is reloaded in between. */
  lemma {:induction false} MessagesAreSpaced(s: State, es: seq<Event>, id: Id)
    requires Valid(s) && IsOnline(s.online, id)
    requires forall k :: 0 <= k < |es| ==> Stays(es[k], id)
    ensures Spaced(Answers(s, es, id))
  {
    hide Passed, Answers, Asked, RunAll, Valid, Spaced;
    AnswersArePassed(s, es, id);
    PassedSpaced(Asked(s, es, id), NextMessage(s, id));
  }

  /** The event does not bring the interval below `least` seconds. */
  predicate KeepsInterval(e: Event, least: int) {
    e.ReloadEvent? && e.cfg.Some? ==> e.cfg.value.messageInterval >= least
  }

  lemma {:induction false} NextInterval(s: State, e: Event, id: Id, least: int)
    requires Stays(e, id) && KeepsInterval(e, least) && s.cfg.messageInterval >= least
    ensures Next(s, e).cfg.messageInterval >= least
  {
  }

  lemma {:induction false} IntervalsInForce(s: State, es: seq<Event>, id: Id, least: int)
    requires forall k :: 0 <= k < |es| ==> Stays(es[k], id) && KeepsInterval(es[k], least)
    requires s.cfg.messageInterval >= least
    ensures RunAll(s, es).cfg.messageInterval >= least
    ensures forall i :: 0 <= i < |Answers(s, es, id)| ==> Answers(s, es, id)[i].interval >= least
  {
    hide Next, MessageReady;
    if es != [] {
      var n := |es| - 1;
      IntervalsInForce(s, es[..n], id, least);
      NextInterval(RunAll(s, es[..n]), es[n], id, least);
    }
  }

  lemma {:induction false} SpanOfSpaced(ready: seq<Question>, least: int)
    requires Spaced(ready) && |ready| >= 2 && forall i :: 0 <= i < |ready| ==> ready[i].interval >= least
    ensures ready[|ready| - 1].at - ready[0].at > (|ready| - 1) * ((least - 1) * TICKS_PER_SECOND)
  {
    var n := |ready| - 1;
    assert ready[n].at - ready[n - 1].at > (least - 1) * TICKS_PER_SECOND;
    if n >= 2 {
      SpanOfSpaced(ready[..n], least);
      OneGapMore(n - 1, (least - 1) * TICKS_PER_SECOND);
    }
  }

  /** So while no interval below `least` is loaded, `k` ready answers span more than
      `(k - 1) * (least - 1)` seconds. */
  lemma {:induction false} MessagesSpan(s: State, es: seq<Event>, id: Id, least: int)
    requires Valid(s) && IsOnline(s.online, id) && s.cfg.messageInterval >= least
    requires forall k :: 0 <= k < |es| ==> Stays(es[k], id) && KeepsInterval(es[k], least)
    ensures var r := Answers(s, es, id);
            |r| >= 2 ==> r[|r| - 1].at - r[0].at > (|r| - 1) * ((least - 1) * TICKS_PER_SECOND)
  {
    hide Answers, Valid, Spaced;
    MessagesAreSpaced(s, es, id);
    IntervalsInForce(s, es, id, least);
    if |Answers(s, es, id)| >= 2 {
      SpanOfSpaced(Answers(s, es, id), least);
    }
  }

  // ---------------------------------------------------------------- updates

  /** Events that leave the configuration and the update deadline to the ticks. */
  predicate KeepsSchedule(e: Event) {
    !e.ReloadEvent? && !e.RestartEvent?
  }

  function Ticks(es: seq<Event>): seq<int> {
    if es == [] then []
    else
      var n := |es| - 1;
      Ticks(es[..n]) + (if es[n].TickEvent? then [es[n].now] else [])
  }

  /** The instants at which a tick sweeps. */
  function Sweeps(s: State, es: seq<Event>): seq<int> {
    if es == [] then []
    else
      var n := |es| - 1;
      Sweeps(s, es[..n])
      + (if es[n].TickEvent? && Due(RunAll(s, es[..n]).nextUpdate, es[n].now) then [es[n].now] else [])
  }

  lemma {:induction false} NextKeepsSchedule(s: State, e: Event)
    requires KeepsSchedule(e)
    ensures Next(s, e).interval == s.interval
    ensures Next(s, e).nextUpdate ==
            if e.TickEvent? && Due(s.nextUpdate, e.now) then e.now + s.interval * TICKS_PER_MINUTE else s.nextUpdate
  {
  }

  lemma {:induction false} SweepsAreReady(s: State, es: seq<Event>)
    requires forall k :: 0 <= k < |es| ==> KeepsSchedule(es[k])
    ensures RunAll(s, es).interval == s.interval
    ensures RunAll(s, es).nextUpdate == DeadlineAfter(Ticks(es), s.nextUpdate, 60 * s.interval)
    ensures Sweeps(s, es) == Ready(Ticks(es), s.nextUpdate, 60 * s.interval)
  {
    hide Next, Due;
    if es != [] {
      var n := |es| - 1;
      SweepsAreReady(s, es[..n]);
      NextKeepsSchedule(RunAll(s, es[..n]), es[n]);
      if es[n].TickEvent? {
        ReadyAppend(Ticks(es[..n]), es[n].now, s.nextUpdate, 60 * s.interval);
      } else {
        assert Ticks(es) == Ticks(es[..n]);
      }
    }
  }

  /** Between configuration loads `k` sweeps span more than `k - 1` update intervals, each less
      a second. */
  lemma {:induction false} SweepsAreSpaced(s: State, es: seq<Event>)
    requires forall k :: 0 <= k < |es| ==> KeepsSchedule(es[k])
    ensures var r := Sweeps(s, es);
            |r| >= 2 ==> r[|r| - 1] - r[0] > (|r| - 1) * ((60 * s.interval - 1) * TICKS_PER_SECOND)
  {
    hide Ready, Sweeps, Ticks, RunAll, KeepsSchedule;
    SweepsAreReady(s, es);
    ReadySpan(Ticks(es), s.nextUpdate, 60 * s.interval);
  }
}
