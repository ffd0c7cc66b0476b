/** What the send limits mean in calendar terms: in every run, a send is
    accepted exactly while each UTC day and civil month it falls in holds fewer
    accepted sends than its limit. */
module SendLimits {
  import opened Wrappers
  import opened Calendar
  import opened SendUsage

  datatype Span = Day(day: nat) | Month(year: nat, month: nat)

  /** A day or month of a workspace, or of one of its mailboxes. */
  datatype Window = Window(workspace: WorkspaceId, mailbox: Option<MailboxId>, span: Span)

  predicate Civil(span: Span) {
    span.Month? ==> span.year >= 1970 && 1 <= span.month <= 12
  }

  predicate InSpan(now: nat, span: Span)
    requires Civil(span)
  {
    match span
    case Day(day) => now / 86400 == day
    case Month(year, month) => InMonth(now / 86400, year, month)
  }

  predicate FallsIn(c: Charge, w: Window)
    requires Civil(w.span)
  {
    && c.workspace == w.workspace
    && (w.mailbox.Some? ==> c.mailbox == w.mailbox.value)
    && InSpan(c.now, w.span)
  }

  function LimitIn(limits: Limits, w: Window): int {
    match w.span
    case Day(_) => if w.mailbox.Some? then limits.mailboxDaily else limits.workspaceDaily
    case Month(_, _) => if w.mailbox.Some? then limits.mailboxMonthly else limits.workspaceMonthly
  }

  /** The sends of the log that fall in the window and were limited there. */
  ghost function Sent(log: seq<Charge>, w: Window): nat
    requires Civil(w.span)
  {
    if log == [] then 0
    else
      var c := log[|log| - 1];
      Sent(log[..|log| - 1], w) + if FallsIn(c, w) && LimitIn(c.limits, w) > 0 then 1 else 0
  }

  function ScopeOf(w: Window): Scope {
    match w.span
    case Day(_) => if w.mailbox.Some? then MailboxDay(w.mailbox.value) else WorkspaceDay
    case Month(_, _) => if w.mailbox.Some? then MailboxMonth(w.mailbox.value) else WorkspaceMonth
  }

  function StartOf(span: Span): (start: int)
    requires Civil(span)
  {
    match span
    case Day(day) => day * 86400
    case Month(year, month) => FirstOf(year, month) * 86400
  }

  /** The counter of the window. */
  function KeyOf(w: Window): UsageKey
    requires Civil(w.span) && StartOf(w.span) >= 0
  {
    UsageKey(w.workspace, ScopeOf(w), StartOf(w.span))
  }

  lemma StartsAfterEpoch(span: Span)
    requires Civil(span)
    ensures StartOf(span) >= 0
  {
    hide FirstOf;
    if span.Month? {
      EpochIsFirst();
      MonthsAscend(1970, 1, span.year, span.month);
    }
  }

  function PeriodOf(span: Span, now: nat): nat {
    if span.Day? then DayStart(now) else MonthStart(now)
  }

  lemma InSpanIsPeriod(span: Span, now: nat)
    requires Civil(span)
    ensures InSpan(now, span) <==> PeriodOf(span, now) == StartOf(span)
  {
    hide FirstOf, InMonth, MonthStart;
    match span
    case Day(day) =>
      DayIsAPeriod(now, day * 86400);
    case Month(year, month) =>
      MonthPeriodIsCivil(now, year, month);
  }

  /** The key a charge uses in the span and scope of the window, if it is limited. */
  lemma KeyOfSpan(c: Charge, w: Window, key: UsageKey)
    requires key.scope == ScopeOf(w)
    ensures key in Keys(c) <==>
              && key.workspace == c.workspace && (w.mailbox.Some? ==> c.mailbox == w.mailbox.value)
              && key.period == PeriodOf(w.span, c.now) && LimitIn(c.limits, w) > 0
    ensures forall r :: r in Reservations(c) && r.key == key ==> r.limit == LimitIn(c.limits, w)
  {
    hide DayStart, MonthStart;
    var rs := Reservations(c);
    assert rs[0] in rs && rs[1] in rs && rs[2] in rs && rs[3] in rs;
    assert key in Keys(c) <==> (exists i :: 0 <= i < 4 && rs[i].limit > 0 && rs[i].key == key);
  }

  /** A charge is on the counter of a window exactly when it falls in the window
      and is limited there. */
  lemma CountedInWindow(c: Charge, w: Window)
    requires Civil(w.span)
    ensures StartOf(w.span) >= 0
    ensures KeyOf(w) in Keys(c) <==> FallsIn(c, w) && LimitIn(c.limits, w) > 0
  {
    hide Keys, StartOf, PeriodOf, InSpan;
    StartsAfterEpoch(w.span);
    InSpanIsPeriod(w.span, c.now);
    KeyOfSpan(c, w, KeyOf(w));
  }

  lemma {:induction false} SentIsCount(log: seq<Charge>, w: Window)
    requires Civil(w.span)
    ensures StartOf(w.span) >= 0 && Sent(log, w) == Count(log, KeyOf(w))
  {
    hide Keys, KeyOf, FallsIn, LimitIn, StartOf;
    StartsAfterEpoch(w.span);
    if log != [] {
      SentIsCount(log[..|log| - 1], w);
      CountedInWindow(log[|log| - 1], w);
    }
  }

  lemma {:induction false} RunConserves(l: Ledger, events: seq<Event>)
    requires Conserved(l) && TimelyRun(l, events)
    ensures Conserved(After(l, events))
    decreases |events|
  {
    hide Conserved, Next, Timely;
    if events != [] {
      NextConserves(l, events[0]);
      RunConserves(Next(l, events[0]), events[1..]);
    }
  }

  /** Every window the charge falls in has room for it. */
  ghost predicate HasRoom(log: seq<Charge>, c: Charge) {
    forall w: Window :: Civil(w.span) && FallsIn(c, w) && LimitIn(c.limits, w) > 0 ==>
                          Sent(log, w) < LimitIn(c.limits, w)
  }

  lemma FitsInWindow(l: Ledger, c: Charge, w: Window)
    requires Conserved(l) && Timely(l, Send(c)) && Civil(w.span)
    requires Fits(l.usage, c) && FallsIn(c, w) && LimitIn(c.limits, w) > 0
    ensures Sent(l.log, w) < LimitIn(c.limits, w)
  {
    hide FallsIn, LimitIn, Reservations, Keys;
    CountedInWindow(c, w);
    SentIsCount(l.log, w);
    ChargesOpenPeriods(l, c);
    var key := KeyOf(w);
    KeyOfSpan(c, w, key);
    ReservationOfKey(c, key);
  }

  lemma ReservationOfKey(c: Charge, key: UsageKey)
    requires key in Keys(c)
    ensures exists r :: r in Reservations(c) && r.limit > 0 && r.key == key
  {
  }

  /** The window a reservation counts in. */
  lemma WindowOf(c: Charge, r: Reservation) returns (w: Window)
    requires r in Reservations(c) && r.limit > 0
    ensures Civil(w.span) && FallsIn(c, w) && LimitIn(c.limits, w) == r.limit
    ensures StartOf(w.span) >= 0 && KeyOf(w) == r.key
  {
    hide FirstOf, InMonth;
    var year, month := CivilMonth(c.now / 86400);
    MonthStartIsCivil(c.now, year, month);
    DayIsAPeriod(c.now, c.now);
    var day, civil := Day(c.now / 86400), Month(year, month);
    hide MonthStart, DayStart;
    w := match r.key.scope
    case WorkspaceDay => Window(c.workspace, None, day)
    case WorkspaceMonth => Window(c.workspace, None, civil)
    case MailboxDay(_) => Window(c.workspace, Some(c.mailbox), day)
    case MailboxMonth(_) => Window(c.workspace, Some(c.mailbox), civil);
    StartsAfterEpoch(w.span);
  }

  lemma RoomFits(l: Ledger, c: Charge)
    requires Conserved(l) && Timely(l, Send(c)) && HasRoom(l.log, c)
    ensures Fits(l.usage, c)
  {
    hide FallsIn, LimitIn, Reservations, Keys, Sent;
    forall r | r in Reservations(c) && r.limit > 0 && r.key in l.usage
      ensures l.usage[r.key] < r.limit
    {
      var w := WindowOf(c, r);
      SentIsCount(l.log, w);
    }
  }

  /** In every run, a timely send is accepted exactly while each day and month it
      falls in, of its workspace and of its mailbox, holds fewer accepted and
      limited sends than its positive limit there. */
  lemma AcceptedWhileRoom(events: seq<Event>, c: Charge)
    requires TimelyRun(EMPTY, events) && Timely(After(EMPTY, events), Send(c))
    ensures Fits(After(EMPTY, events).usage, c) <==> HasRoom(After(EMPTY, events).log, c)
  {
    hide Fits, TimelyRun, After, Conserved, Timely, Sent, FallsIn, LimitIn;
    var l := After(EMPTY, events);
    EmptyConserved();
    RunConserves(EMPTY, events);
    if Fits(l.usage, c) {
      forall w: Window | Civil(w.span) && FallsIn(c, w) && LimitIn(c.limits, w) > 0
        ensures Sent(l.log, w) < LimitIn(c.limits, w)
      {
        FitsInWindow(l, c, w);
      }
    }
    if HasRoom(l.log, c) {
      RoomFits(l, c);
    }
  }

  lemma EmptyConserved()
    ensures Conserved(EMPTY)
  {
  }

  /** The sends of the run that fall in the window are limited there, by at most `limit`. */
  ghost predicate LimitedBy(events: seq<Event>, w: Window, limit: int)
    requires Civil(w.span)
  {
    forall e :: e in events && e.Send? && FallsIn(e.charge, w) ==> 0 < LimitIn(e.charge.limits, w) <= limit
  }

  lemma {:induction false} WindowHolds(l: Ledger, events: seq<Event>, w: Window, limit: int)
    requires Conserved(l) && TimelyRun(l, events) && Civil(w.span) && LimitedBy(events, w, limit)
    requires Sent(l.log, w) <= limit
    ensures Sent(After(l, events).log, w) <= limit
    decreases |events|
  {
    hide Conserved, Fits, FallsIn, LimitIn, Timely, Charged, Retained, Max;
    if events != [] {
      var e := events[0];
      NextConserves(l, e);
      assert e in events;
      if e.Send? && Fits(l.usage, e.charge) {
        assert (l.log + [e.charge])[..|l.log|] == l.log;
        if FallsIn(e.charge, w) {
          FitsInWindow(l, e.charge, w);
        }
      }
      WindowHolds(Next(l, e), events[1..], w, limit);
    }
  }

  /** The accepted sends of the log in the window, limited or not. */
  ghost function Accepted(log: seq<Charge>, w: Window): nat
    requires Civil(w.span)
  {
    if log == [] then 0
    else Accepted(log[..|log| - 1], w) + if FallsIn(log[|log| - 1], w) then 1 else 0
  }

  lemma {:induction false} AllLimited(log: seq<Charge>, w: Window)
    requires Civil(w.span) && forall c :: c in log && FallsIn(c, w) ==> LimitIn(c.limits, w) > 0
    ensures Accepted(log, w) == Sent(log, w)
  {
    hide FallsIn, LimitIn;
    if log != [] {
      assert log[|log| - 1] in log;
      AllLimited(log[..|log| - 1], w);
    }
  }

  lemma {:induction false} LogFromEvents(l: Ledger, events: seq<Event>)
    ensures forall c :: c in After(l, events).log ==> c in l.log || Send(c) in events
    decreases |events|
  {
    hide Fits, Charged, Retained, Max;
    if events != [] {
      LogFromEvents(Next(l, events[0]), events[1..]);
    }
  }

  /** Over every timely run under one positive limit, a workspace or mailbox gets
      at most that many sends accepted in one UTC day or civil month, however
      the sends, the purges and the changes of the other limits interleave. */
  lemma LimitHolds(events: seq<Event>, w: Window, limit: int)
    requires TimelyRun(EMPTY, events) && Civil(w.span) && LimitedBy(events, w, limit) && limit >= 0
    ensures Accepted(After(EMPTY, events).log, w) <= limit
  {
    hide TimelyRun, After, FallsIn, LimitIn, Conserved;
    EmptyConserved();
    WindowHolds(EMPTY, events, w, limit);
    LogFromEvents(EMPTY, events);
    AllLimited(After(EMPTY, events).log, w);
  }
}
