/** The four-counter send reservation: calendar periods, the conditional
    upsert, the retention purge, and what the counters mean over a run. */
module SendUsage {
  import opened Calendar
  import opened SetSum

  /** sendUsageRetention, in seconds. */
  const RETENTION: nat := 62 * DAY

  // ---- the counters ----

  type WorkspaceId = string
  type MailboxId = string

  datatype Scope = WorkspaceDay | WorkspaceMonth | MailboxDay(mailbox: MailboxId) | MailboxMonth(mailbox: MailboxId)
  datatype UsageKey = UsageKey(workspace: WorkspaceId, scope: Scope, period: nat)
  type Usage = map<UsageKey, nat>

  datatype Limits = Limits(mailboxDaily: int, mailboxMonthly: int, workspaceDaily: int, workspaceMonthly: int)

  /** One outbound send to be charged. */
  datatype Charge = Charge(workspace: WorkspaceId, mailbox: MailboxId, limits: Limits, now: nat)

  datatype Reservation = Reservation(key: UsageKey, limit: int)

  function Reservations(c: Charge): seq<Reservation> {
    [Reservation(UsageKey(c.workspace, WorkspaceDay, DayStart(c.now)), c.limits.workspaceDaily),
     Reservation(UsageKey(c.workspace, WorkspaceMonth, MonthStart(c.now)), c.limits.workspaceMonthly),
     Reservation(UsageKey(c.workspace, MailboxDay(c.mailbox), DayStart(c.now)), c.limits.mailboxDaily),
     Reservation(UsageKey(c.workspace, MailboxMonth(c.mailbox), MonthStart(c.now)), c.limits.mailboxMonthly)]
  }

  function CountOf(usage: Usage, key: UsageKey): nat {
    if key in usage then usage[key] else 0
  }

  /** The counters the charge uses: those whose limit is positive. */
  ghost function Keys(c: Charge): set<UsageKey> {
    set r | r in Reservations(c) && r.limit > 0 :: r.key
  }

  /** A charge fits while every enabled counter is below its limit; a counter
      without a row starts at one whatever its limit. */
  predicate Fits(usage: Usage, c: Charge) {
    forall r :: r in Reservations(c) && r.limit > 0 && r.key in usage ==> usage[r.key] < r.limit
  }

  /** One more on each of the keys. */
  ghost function Bumped(usage: Usage, keys: set<UsageKey>): Usage {
    map key | key in usage.Keys + keys :: CountOf(usage, key) + if key in keys then 1 else 0
  }

  ghost function Charged(usage: Usage, c: Charge): Usage {
    Bumped(usage, Keys(c))
  }

  class UsageTable {
    var usage: Usage

    /** The upsert: start the row at one, or add one while it is below the limit. */
    method ReserveSendUsage(key: UsageKey, limit: int) returns (ok: bool)
      modifies this
      ensures limit <= 0 ==> ok && usage == old(usage)
      ensures limit > 0 ==> (ok <==> key in old(usage) ==> old(usage)[key] < limit)
      ensures limit > 0 ==> usage == if ok then old(usage)[key := CountOf(old(usage), key) + 1] else old(usage)
    {
      if limit <= 0 {
        return true;
      }
      if key !in usage {
        usage := usage[key := 1];
        return true;
      }
      ok := usage[key] < limit;
      if ok {
        usage := usage[key := usage[key] + 1];
      }
    }

    /** All four reservations or, when one is refused, none. */
    method ReserveOutboundSend(c: Charge) returns (ok: bool)
      modifies this
      ensures ok <==> Fits(old(usage), c)
      ensures usage == if ok then Charged(old(usage), c) else old(usage)
    {
      hide Reservations, Keys, KeysTo, Bumped;
      var saved := usage;
      var reservations := Reservations(c);
      FourDistinct(c);
      NothingBumped(saved);
      assert KeysTo(reservations, 0) == {} by { NoKeys(reservations); }
      for i := 0 to 4
        invariant forall j :: 0 <= j < i && reservations[j].limit > 0 && reservations[j].key in saved ==>
                    saved[reservations[j].key] < reservations[j].limit
        invariant usage == Bumped(saved, KeysTo(reservations, i))
      {
        var r := reservations[i];
        KeysToMore(reservations, i);
        OneMoreBumped(saved, KeysTo(reservations, i), r.key);
        assert KeysTo(reservations, i) + {} == KeysTo(reservations, i);
        ok := ReserveSendUsage(r.key, r.limit);
        if !ok {
          assert r in reservations;
          usage := saved;
          return;
        }
      }
      KeysToAll(c);
      ok := true;
    }

    method PurgeExpired(now: nat)
      modifies this
      ensures usage == Retained(old(usage), now - RETENTION)
    {
      usage := map key | key in usage && !(key.period < now - RETENTION) :: usage[key];
    }
  }

  ghost function KeysTo(reservations: seq<Reservation>, n: nat): set<UsageKey>
    requires n <= |reservations|
  {
    if n == 0 then {}
    else KeysTo(reservations, n - 1) + if reservations[n - 1].limit > 0 then {reservations[n - 1].key} else {}
  }

  lemma NothingBumped(usage: Usage)
    ensures Bumped(usage, {}) == usage
  {
  }

  lemma OneMoreBumped(usage: Usage, keys: set<UsageKey>, key: UsageKey)
    requires key !in keys
    ensures var part := Bumped(usage, keys);
            && (key in part <==> key in usage) && (key in usage ==> part[key] == usage[key])
            && Bumped(usage, keys + {key}) == part[key := CountOf(part, key) + 1]
  {
    var next := Bumped(usage, keys)[key := CountOf(Bumped(usage, keys), key) + 1];
    assert Bumped(usage, keys + {key}).Keys == next.Keys;
  }

  lemma NoKeys(reservations: seq<Reservation>)
    ensures KeysTo(reservations, 0) == {}
  {
  }

  lemma KeysToMore(reservations: seq<Reservation>, n: nat)
    requires n < |reservations|
    ensures KeysTo(reservations, n + 1) == KeysTo(reservations, n) + if reservations[n].limit > 0
            then {reservations[n].key} else {}
  {
  }

  lemma FourDistinct(c: Charge)
    ensures |Reservations(c)| == 4
    ensures forall i, j :: 0 <= i < j < 4 ==> Reservations(c)[i].key != Reservations(c)[j].key
    ensures forall i :: 0 <= i < 4 ==> Reservations(c)[i].key !in KeysTo(Reservations(c), i)
  {
    hide DayStart, MonthStart;
    var rs := Reservations(c);
    assert KeysTo(rs, 0) == {} && KeysTo(rs, 1) <= {rs[0].key};
    assert KeysTo(rs, 2) <= {rs[0].key, rs[1].key};
    assert KeysTo(rs, 3) <= {rs[0].key, rs[1].key, rs[2].key};
  }

  lemma KeysToAll(c: Charge)
    ensures |Reservations(c)| == 4 && KeysTo(Reservations(c), 4) == Keys(c)
    ensures forall r :: r in Reservations(c) <==> exists i :: 0 <= i < 4 && Reservations(c)[i] == r
  {
    hide DayStart, MonthStart;
    var rs := Reservations(c);
    assert rs[0] in rs && rs[1] in rs && rs[2] in rs && rs[3] in rs;
    assert KeysTo(rs, 0) == {};
    assert KeysTo(rs, 1) == KeysTo(rs, 0) + if rs[0].limit > 0 then {rs[0].key} else {};
    assert KeysTo(rs, 2) == KeysTo(rs, 1) + if rs[1].limit > 0 then {rs[1].key} else {};
    assert KeysTo(rs, 3) == KeysTo(rs, 2) + if rs[2].limit > 0 then {rs[2].key} else {};
    assert KeysTo(rs, 4) == KeysTo(rs, 3) + if rs[3].limit > 0 then {rs[3].key} else {};
    forall key ensures key in Keys(c) <==> key in KeysTo(rs, 4) {
      if key in Keys(c) {
        var r :| r in rs && r.limit > 0 && r.key == key;
        assert r == rs[0] || r == rs[1] || r == rs[2] || r == rs[3];
      }
    }
  }

  function Retained(usage: Usage, cutoff: int): Usage {
    map key | key in usage && key.period >= cutoff :: usage[key]
  }

  // ---- runs ----

  /** The counter table with the history that explains it: the committed
      charges, the clock and the latest purge cutoff. */
  datatype Ledger = Ledger(usage: Usage, log: seq<Charge>, clock: nat, cutoff: int)

  datatype Event = Send(charge: Charge) | Purge(now: nat)

  /** The clock is monotone; a reservation may be stamped up to 31 days late. */
  predicate Timely(l: Ledger, e: Event) {
    match e
    case Send(c) => l.clock <= c.now + MAX_LAG
    case Purge(now) => l.clock <= now
  }

  function Max(a: int, b: int): int {
    if a < b then b else a
  }

  ghost function Next(l: Ledger, e: Event): Ledger {
    match e
    case Send(c) =>
      if Fits(l.usage, c) then Ledger(Charged(l.usage, c), l.log + [c], Max(l.clock, c.now), l.cutoff)
      else l.(clock := Max(l.clock, c.now))
    case Purge(now) =>
      Ledger(Retained(l.usage, now - RETENTION), l.log, Max(l.clock, now), Max(l.cutoff, now - RETENTION))
  }

  ghost function Count(log: seq<Charge>, key: UsageKey): nat {
    if log == [] then 0 else Count(log[..|log| - 1], key) + if key in Keys(log[|log| - 1]) then 1 else 0
  }

  /** Every counter row is the number of committed charges on it; only rows of
      periods before the last cutoff are gone, and no later charge reaches
      such a period. */
  ghost predicate Conserved(l: Ledger) {
    && l.cutoff + RETENTION <= l.clock
    && (forall key :: key in l.usage ==> key.period >= l.cutoff && l.usage[key] == Count(l.log, key) > 0)
    && (forall key: UsageKey :: key.period >= l.cutoff && Count(l.log, key) > 0 ==> key in l.usage)
  }

  lemma CountAppend(log: seq<Charge>, c: Charge, key: UsageKey)
    ensures Count(log + [c], key) == Count(log, key) + if key in Keys(c) then 1 else 0
  {
    assert (log + [c])[..|log|] == log;
  }

  lemma NextConserves(l: Ledger, e: Event)
    requires Conserved(l) && Timely(l, e)
    ensures Conserved(Next(l, e))
  {
    hide Keys, Fits, MonthStart;
    var m := Next(l, e);
    match e
    case Purge(now) =>
    case Send(c) =>
      forall key ensures Count(l.log + [c], key) == Count(l.log, key) + if key in Keys(c) then 1 else 0 {
        CountAppend(l.log, c, key);
      }
      ChargesOpenPeriods(l, c);
  }

  /** A timely charge only uses periods the purge has kept. */
  lemma ChargesOpenPeriods(l: Ledger, c: Charge)
    requires l.cutoff + RETENTION <= l.clock && Timely(l, Send(c))
    ensures forall key :: key in Keys(c) ==> key.period >= l.cutoff
  {
  }

  /** A purge changes nothing for later charges: a timely one fits as before, and
      charging and purging may be exchanged. A month row that stays keeps all
      its day rows. */
  lemma PurgeIsInvisible(usage: Usage, c: Charge, now: nat, month: UsageKey, day: UsageKey)
    requires now <= c.now + MAX_LAG
    ensures var kept := Retained(usage, now - RETENTION);
            && (forall key :: key in kept <==> key in usage && now - key.period <= 62 * 86400)
            && (Fits(kept, c) <==> Fits(usage, c))
            && Charged(kept, c) == Retained(Charged(usage, c), now - RETENTION)
            && (month in kept && day in usage && MonthStart(day.period) == month.period ==> day in kept)
  {
    hide Keys, MonthFrom;
    var kept := Retained(usage, now - RETENTION);
    OpenPeriods(c, now);
    assert forall key :: key in Keys(c) ==> CountOf(kept, key) == CountOf(usage, key);
    forall r | r in Reservations(c) && r.limit > 0
      ensures r.key in kept <==> r.key in usage
    {
      assert r.key in Keys(c) by { KeyOfReservation(c, r); }
    }
  }

  lemma OpenPeriods(c: Charge, now: nat)
    requires now <= c.now + MAX_LAG
    ensures forall key :: key in Keys(c) ==> key.period >= now - RETENTION
  {
    hide MonthFrom;
  }

  lemma KeyOfReservation(c: Charge, r: Reservation)
    requires r in Reservations(c) && r.limit > 0
    ensures r.key in Keys(c)
  {
  }

  ghost predicate TimelyRun(l: Ledger, events: seq<Event>)
    decreases |events|
  {
    events == [] || (Timely(l, events[0]) && TimelyRun(Next(l, events[0]), events[1..]))
  }

  ghost function After(l: Ledger, events: seq<Event>): Ledger
    decreases |events|
  {
    if events == [] then l else After(Next(l, events[0]), events[1..])
  }

  const EMPTY: Ledger := Ledger(map[], [], 0, -(RETENTION as int))

  // ---- what follows for constant positive limits ----

  ghost predicate AllPositive(limits: Limits) {
    limits.mailboxDaily > 0 && limits.mailboxMonthly > 0 && limits.workspaceDaily > 0 && limits.workspaceMonthly > 0
  }

  function LimitOf(limits: Limits, scope: Scope): int {
    match scope
    case WorkspaceDay => limits.workspaceDaily
    case WorkspaceMonth => limits.workspaceMonthly
    case MailboxDay(_) => limits.mailboxDaily
    case MailboxMonth(_) => limits.mailboxMonthly
  }

  ghost predicate OnPlan(c: Charge, plan: WorkspaceId -> Limits) {
    c.limits == plan(c.workspace) && AllPositive(c.limits)
  }

  ghost predicate WithinLimits(usage: Usage, plan: WorkspaceId -> Limits) {
    forall key :: key in usage ==> usage[key] <= LimitOf(plan(key.workspace), key.scope)
  }

  ghost predicate PlannedLedger(l: Ledger, plan: WorkspaceId -> Limits) {
    Conserved(l) && WithinLimits(l.usage, plan) && forall c :: c in l.log ==> OnPlan(c, plan)
  }

  lemma NextPlanned(l: Ledger, e: Event, plan: WorkspaceId -> Limits)
    requires PlannedLedger(l, plan) && Timely(l, e) && (e.Send? ==> OnPlan(e.charge, plan))
    ensures PlannedLedger(Next(l, e), plan)
  {
    hide MonthStart, DayStart, Conserved;
    NextConserves(l, e);
    if e.Send? && Fits(l.usage, e.charge) {
      var c := e.charge;
      forall key | key in Charged(l.usage, c)
        ensures Charged(l.usage, c)[key] <= LimitOf(plan(key.workspace), key.scope)
      {
        if key in Keys(c) {
          var r :| r in Reservations(c) && r.limit > 0 && r.key == key;
          assert r.limit == LimitOf(plan(key.workspace), key.scope);
        }
      }
    }
  }

  lemma {:induction false} RunPlanned(l: Ledger, events: seq<Event>, plan: WorkspaceId -> Limits)
    requires PlannedLedger(l, plan) && TimelyRun(l, events)
    requires forall e :: e in events && e.Send? ==> OnPlan(e.charge, plan)
    ensures PlannedLedger(After(l, events), plan)
    decreases |events|
  {
    hide PlannedLedger, OnPlan, Next;
    if events != [] {
      assert events[0] in events;
      NextPlanned(l, events[0], plan);
      RunPlanned(Next(l, events[0]), events[1..], plan);
    }
  }

  /** The rows of `usage` with the given shape. */
  ghost function MailboxDays(usage: Usage, workspace: WorkspaceId, day: nat): set<UsageKey> {
    set key | key in usage && key.workspace == workspace && key.scope.MailboxDay? && key.period == day
  }

  /** The day rows, of the workspace or of one mailbox, in the month of `month`. */
  ghost function DaysOfMonth(usage: Usage, workspace: WorkspaceId, scope: Scope, month: nat): set<UsageKey> {
    set key | key in usage && key.workspace == workspace && key.scope == scope && MonthStart(key.period) == month
  }

  ghost function Indicator(c: Charge): UsageKey -> int {
    key => if key in Keys(c) then 1 else 0
  }

  ghost function Counting(log: seq<Charge>): UsageKey -> int {
    key => Count(log, key)
  }

  ghost function Reading(usage: Usage): UsageKey -> int {
    key => CountOf(usage, key)
  }

  lemma {:induction false} SumOfIndicator(s: set<UsageKey>, c: Charge)
    ensures Sum(s, Indicator(c)) == |s * Keys(c)|
    decreases |s|
  {
    hide Keys;
    if s == {} {
      assert s * Keys(c) == {};
    } else {
      var x :| x in s;
      SumWithout(s, Indicator(c), x);
      SumOfIndicator(s - {x}, c);
      OneLess(s, Keys(c), x);
    }
  }

  lemma OneLess<T>(s: set<T>, t: set<T>, x: T)
    requires x in s
    ensures |s * t| == |(s - {x}) * t| + if x in t then 1 else 0
  {
    if x in t {
      assert s * t == (s - {x}) * t + {x};
    } else {
      assert s * t == (s - {x}) * t;
    }
  }

  lemma {:induction false} SumAdds(s: set<UsageKey>, f: UsageKey -> int, g: UsageKey -> int, h: UsageKey -> int)
    requires forall key :: key in s ==> h(key) == f(key) + g(key)
    ensures Sum(s, h) == Sum(s, f) + Sum(s, g)
    decreases |s|
  {
    if s != {} {
      var x :| x in s;
      SumWithout(s, f, x);
      SumWithout(s, g, x);
      SumWithout(s, h, x);
      SumAdds(s - {x}, f, g, h);
    }
  }

  /** If each charge on `total` is on exactly one key of `parts` and no other
      charge is on any, the parts add up to the total. */
  lemma {:induction false} PartsAddUp(log: seq<Charge>, parts: set<UsageKey>, total: UsageKey)
    requires forall c :: c in log ==> |parts * Keys(c)| == if total in Keys(c) then 1 else 0
    ensures Sum(parts, Counting(log)) == Count(log, total)
    decreases |log|
  {
    hide Keys, Sum;
    if log == [] {
      SumZero(parts, Counting(log));
    } else {
      var n := |log| - 1;
      var c, rest := log[n], log[..n];
      PartsAddUp(rest, parts, total);
      SumAdds(parts, Counting(rest), Indicator(c), Counting(log));
      SumOfIndicator(parts, c);
    }
  }

  lemma {:induction false} SumZero(s: set<UsageKey>, f: UsageKey -> int)
    requires forall key :: key in s ==> f(key) == 0
    ensures Sum(s, f) == 0
    decreases |s|
  {
    if s != {} {
      var x :| x in s;
      SumWithout(s, f, x);
      SumZero(s - {x}, f);
    }
  }

  // ---- the counters agree with one another ----

  lemma ChargeKeys(c: Charge, key: UsageKey)
    requires AllPositive(c.limits)
    ensures key in Keys(c) <==>
              && key.workspace == c.workspace
              && match key.scope
                 case WorkspaceDay => key.period == DayStart(c.now)
                 case WorkspaceMonth => key.period == MonthStart(c.now)
                 case MailboxDay(m) => m == c.mailbox && key.period == DayStart(c.now)
                 case MailboxMonth(m) => m == c.mailbox && key.period == MonthStart(c.now)
  {
    hide DayStart, MonthStart;
    var rs := Reservations(c);
    assert rs[0] in rs && rs[1] in rs && rs[2] in rs && rs[3] in rs;
    assert key in Keys(c) <==> key == rs[0].key || key == rs[1].key || key == rs[2].key || key == rs[3].key;
  }

  lemma CountPositive(log: seq<Charge>, c: Charge, key: UsageKey)
    requires c in log && key in Keys(c)
    ensures Count(log, key) > 0
    decreases |log|
  {
    if log[|log| - 1] != c {
      assert log == log[..|log| - 1] + [log[|log| - 1]];
      CountPositive(log[..|log| - 1], c, key);
    }
  }

  /** workspace:day is the sum of the workspace's mailbox day counters. */
  lemma DayIsSumOfMailboxes(l: Ledger, plan: WorkspaceId -> Limits, workspace: WorkspaceId, day: nat)
    requires PlannedLedger(l, plan) && UsageKey(workspace, WorkspaceDay, day) in l.usage
    ensures l.usage[UsageKey(workspace, WorkspaceDay, day)] ==
            Sum(MailboxDays(l.usage, workspace, day), Reading(l.usage))
  {
    hide WithinLimits, Keys, DayStart, MonthStart;
    var total := UsageKey(workspace, WorkspaceDay, day);
    var parts := MailboxDays(l.usage, workspace, day);
    forall c | c in l.log
      ensures |parts * Keys(c)| == if total in Keys(c) then 1 else 0
    {
      var part := UsageKey(c.workspace, MailboxDay(c.mailbox), DayStart(c.now));
      ChargeKeys(c, total);
      ChargeKeys(c, part);
      CountPositive(l.log, c, part);
      forall key | key in parts ensures key in Keys(c) <==> total in Keys(c) && key == part {
        ChargeKeys(c, key);
      }
      assert parts * Keys(c) == if total in Keys(c) then {part} else {};
    }
    PartsAddUp(l.log, parts, total);
    SumCongruent(parts, Counting(l.log), Reading(l.usage));
  }

  /** The day counter that goes with a month counter. */
  function DayScope(scope: Scope): Scope {
    match scope
    case MailboxMonth(mailbox) => MailboxDay(mailbox)
    case _ => WorkspaceDay
  }

  /** A month row still present, of the workspace or of a mailbox, is the sum of
      its day rows: the purge took none of them before it. */
  lemma MonthIsSumOfDays(l: Ledger, plan: WorkspaceId -> Limits, total: UsageKey)
    requires PlannedLedger(l, plan) && total in l.usage && (total.scope.WorkspaceMonth? || total.scope.MailboxMonth?)
    ensures l.usage[total] == Sum(DaysOfMonth(l.usage, total.workspace, DayScope(total.scope), total.period),
            Reading(l.usage))
  {
    hide WithinLimits, Keys, DayStart, MonthStart;
    var parts := DaysOfMonth(l.usage, total.workspace, DayScope(total.scope), total.period);
    forall c | c in l.log
      ensures |parts * Keys(c)| == if total in Keys(c) then 1 else 0
    {
      var part := UsageKey(c.workspace, DayScope(total.scope), DayStart(c.now));
      ChargeKeys(c, total);
      ChargeKeys(c, part);
      if total in Keys(c) {
        CountPositive(l.log, c, part);
      }
      DayInMonth(c.now);
      forall key | key in parts ensures key in Keys(c) <==> total in Keys(c) && key == part {
        ChargeKeys(c, key);
      }
      assert parts * Keys(c) == if total in Keys(c) then {part} else {};
    }
    PartsAddUp(l.log, parts, total);
    SumCongruent(parts, Counting(l.log), Reading(l.usage));
  }

  lemma DayInMonth(now: nat)
    ensures MonthStart(DayStart(now)) == MonthStart(now) <= DayStart(now)
  {
    MonthIsAPeriod(now, DayStart(now));
  }

  /** From an empty table, over every timely run under constant positive
      limits, no counter exceeds its limit and the counters add up. */
  lemma CountersConserved(events: seq<Event>, plan: WorkspaceId -> Limits, key: UsageKey)
    requires TimelyRun(EMPTY, events) && (forall e :: e in events && e.Send? ==> OnPlan(e.charge, plan))
    requires key in After(EMPTY, events).usage
    ensures var usage := After(EMPTY, events).usage;
            && usage[key] <= LimitOf(plan(key.workspace), key.scope)
            && (key.scope.WorkspaceDay? ==>
                  usage[key] == Sum(MailboxDays(usage, key.workspace, key.period), Reading(usage)))
            && (key.scope.WorkspaceMonth? || key.scope.MailboxMonth? ==>
                  usage[key] == Sum(DaysOfMonth(usage, key.workspace, DayScope(key.scope), key.period), Reading(usage)))
  {
    hide TimelyRun, After, OnPlan;
    RunPlanned(EMPTY, events, plan);
    var l := After(EMPTY, events);
    if key.scope.WorkspaceDay? {
      DayIsSumOfMailboxes(l, plan, key.workspace, key.period);
    } else if key.scope.WorkspaceMonth? || key.scope.MailboxMonth? {
      MonthIsSumOfDays(l, plan, key);
    }
  }
}
