/** Scheduled delivery: any number of workers race to claim due messages, each
    claim charging the send counters in the same transaction. */
module Scheduler {
  import opened Calendar
  import opened SendUsage
  import opened Wrappers

  type EmailId = string
  type WorkerId = int

  datatype Status = Draft | Scheduled | Pending | Sent | Failed | NotConfigured

  datatype Message = Message(workspace: WorkspaceId, mailbox: MailboxId, status: Status)

  function ChargeFor(m: Message, limits: Limits, now: nat): Charge {
    Charge(m.workspace, m.mailbox, limits, now)
  }

  // ---- the claim transaction ----

  predicate Claims(messages: map<EmailId, Message>, usage: Usage, id: EmailId, limits: Limits, now: nat) {
    id in messages && messages[id].status.Scheduled? && Fits(usage, ChargeFor(messages[id], limits, now))
  }

  class MailQueue {
    var messages: map<EmailId, Message>
    const table: UsageTable

    constructor (table: UsageTable)
      ensures messages == map[] && this.table == table
    {
      messages := map[];
      this.table := table;
    }

    /** Mark the message pending if it is still scheduled and charge it; a
        refused charge rolls both back. */
    method ClaimScheduled(id: EmailId, limits: Limits, now: nat) returns (claimed: bool)
      modifies this, table
      ensures claimed <==> Claims(old(messages), old(table.usage), id, limits, now)
      ensures !claimed ==> messages == old(messages) && table.usage == old(table.usage)
      ensures claimed ==> messages == old(messages)[id := old(messages)[id].(status := Pending)]
      ensures claimed ==> table.usage == Charged(old(table.usage), ChargeFor(old(messages)[id], limits, now))
    {
      hide Fits, Charged;
      var saved := messages;
      claimed := id in messages && messages[id].status.Scheduled?;
      if claimed {
        messages := messages[id := messages[id].(status := Pending)];
        claimed := table.ReserveOutboundSend(ChargeFor(saved[id], limits, now));
        if !claimed {
          messages := saved;
        }
      }
    }
  }

  // ---- all workers and their environment ----

  datatype Worker = Idle | Working(queue: seq<EmailId>) | Sending(id: EmailId, queue: seq<EmailId>)

  /** Each committed charge names the scheduled message it paid for, if any. */
  datatype Entry = Entry(source: Option<EmailId>, charge: Charge)

  /** `born` remembers each message as it was created, deleted ones included. */
  datatype World = World(
    messages: map<EmailId, Message>,
    born: map<EmailId, Message>,
    workers: map<WorkerId, Worker>,
    ledger: Ledger,
    entries: seq<Entry>,
    handedOff: seq<EmailId>)

  datatype Op =
    | Create(id: EmailId, message: Message)
    | Poll(worker: WorkerId, due: seq<EmailId>)
    | Skip(worker: WorkerId)
    | Claim(worker: WorkerId, limits: Limits, now: nat)
    | Deliver(worker: WorkerId, relay: bool, result: Status)
    | Resend(id: EmailId)
    | RecordResult(id: EmailId, result: Status)
    | Delete(id: EmailId)
    | ChargeOther(charge: Charge)
    | PurgeUsage(now: nat)

  predicate Outcome(s: Status) {
    s.Sent? || s.Failed? || s.NotConfigured?
  }

  /** New messages have fresh ids; a worker polls when idle and only sees
      scheduled messages; reservations and purges are timely. */
  ghost predicate Enabled(w: World, op: Op) {
    match op
    case Create(id, _) => id !in w.born
    case Poll(k, due) =>
      && k in w.workers && w.workers[k].Idle?
      && forall id :: id in due ==> id in w.messages && w.messages[id].status.Scheduled?
    case Skip(k) => k in w.workers && w.workers[k].Working? && w.workers[k].queue != []
    case Claim(k, limits, now) =>
      && k in w.workers && w.workers[k].Working? && w.workers[k].queue != []
      && w.ledger.clock <= now + MAX_LAG
    case Deliver(k, relay, result) => k in w.workers && w.workers[k].Sending? && Outcome(result)
    case RecordResult(_, result) => Outcome(result)
    case ChargeOther(c) => Timely(w.ledger, Send(c))
    case PurgeUsage(now) => Timely(w.ledger, Purge(now))
    case _ => true
  }

  function WithStatus(messages: map<EmailId, Message>, id: EmailId, status: Status): map<EmailId, Message> {
    if id in messages then messages[id := messages[id].(status := status)] else messages
  }

  ghost function Step(w: World, op: Op): World
    requires Enabled(w, op)
  {
    match op
    case Create(id, message) => w.(messages := w.messages[id := message], born := w.born[id := message])
    case Poll(k, due) => w.(workers := w.workers[k := if due == [] then Idle else Working(due)])
    case Skip(k) => w.(workers := w.workers[k := Rest(w.workers[k].queue)])
    case Claim(k, limits, now) =>
      var id, rest := w.workers[k].queue[0], w.workers[k].queue[1..];
      if Claims(w.messages, w.ledger.usage, id, limits, now) then
        var c := ChargeFor(w.messages[id], limits, now);
        w.(messages := WithStatus(w.messages, id, Pending),
           workers := w.workers[k := Sending(id, rest)],
           ledger := Next(w.ledger, Send(c)),
           entries := w.entries + [Entry(Some(id), c)])
      else w.(workers := w.workers[k := Rest(w.workers[k].queue)])
    case Deliver(k, relay, result) =>
      var id, rest := w.workers[k].id, w.workers[k].queue;
      w.(messages := WithStatus(w.messages, id, if relay then result else NotConfigured),
         workers := w.workers[k := if rest == [] then Idle else Working(rest)],
         handedOff := if relay then w.handedOff + [id] else w.handedOff)
    case Resend(id) => w.(messages := WithStatus(w.messages, id, Pending))
    case RecordResult(id, result) => w.(messages := WithStatus(w.messages, id, result))
    case Delete(id) => w.(messages := w.messages - {id})
    case ChargeOther(c) =>
      w.(ledger := Next(w.ledger, Send(c)),
         entries := if Fits(w.ledger.usage, c) then w.entries + [Entry(None, c)] else w.entries)
    case PurgeUsage(now) => w.(ledger := Next(w.ledger, Purge(now)))
  }

  function Rest(queue: seq<EmailId>): Worker
    requires queue != []
  {
    if |queue| == 1 then Idle else Working(queue[1..])
  }

  // ---- claimed at most once ----

  ghost predicate PaidBy(w: World, id: EmailId, i: nat)
    requires i < |w.entries|
  {
    w.entries[i].source == Some(id)
  }

  ghost predicate Claimed(w: World, id: EmailId) {
    exists i :: 0 <= i < |w.entries| && PaidBy(w, id, i)
  }

  ghost predicate Busy(w: World, k: WorkerId, id: EmailId) {
    k in w.workers && w.workers[k].Sending? && w.workers[k].id == id
  }

  ghost predicate LogMatches(w: World) {
    |w.ledger.log| == |w.entries| && forall i :: 0 <= i < |w.entries| ==> w.ledger.log[i] == w.entries[i].charge
  }

  /** A message keeps the workspace and mailbox it was created in. */
  predicate SameOwner(a: Message, b: Message) {
    a.workspace == b.workspace && a.mailbox == b.mailbox
  }

  /** An entry that names a message charges that message's workspace and mailbox. */
  ghost predicate ChargesOwner(w: World, i: nat)
    requires i < |w.entries|
  {
    w.entries[i].source.Some? ==>
      var id, c := w.entries[i].source.value, w.entries[i].charge;
      id in w.born && c.workspace == w.born[id].workspace && c.mailbox == w.born[id].mailbox
  }

  ghost predicate Inv(w: World) {
    && Conserved(w.ledger) && LogMatches(w)
    && (forall id :: id in w.messages ==> id in w.born && SameOwner(w.messages[id], w.born[id]))
    && (forall i :: 0 <= i < |w.entries| ==> ChargesOwner(w, i))
    // A claimed message is no longer scheduled, and was claimed once.
    && (forall id :: Claimed(w, id) ==> id in w.born && (id in w.messages ==> !w.messages[id].status.Scheduled?))
    && (forall id, i, j ::
          0 <= i < |w.entries| && 0 <= j < |w.entries| && PaidBy(w, id, i) && PaidBy(w, id, j) ==> i == j)
    // A claim is with one worker, or was handed off, but not both.
    && (forall k, id :: Busy(w, k, id) ==> Claimed(w, id) && id !in w.handedOff)
    && (forall j, k, id :: Busy(w, j, id) && Busy(w, k, id) ==> j == k)
    && (forall id :: id in w.handedOff ==> Claimed(w, id))
    && (forall i, j :: 0 <= i < j < |w.handedOff| ==> w.handedOff[i] != w.handedOff[j])
  }

  /** Steps that neither claim nor hand off only have to leave the claimed
      messages unscheduled. */
  lemma QuietStep(w: World, u: World)
    requires Inv(w) && Conserved(u.ledger) && LogMatches(u)
    requires u.handedOff == w.handedOff
    requires forall id :: id in u.messages ==> id in u.born && SameOwner(u.messages[id], u.born[id])
    requires forall id :: id in w.born ==> id in u.born && u.born[id] == w.born[id]
    requires forall id :: id in u.messages && u.messages[id].status.Scheduled? ==>
             id !in w.born || (id in w.messages && w.messages[id].status.Scheduled?)
    requires u.entries == w.entries || exists c :: u.entries == w.entries + [Entry(None, c)]
    requires forall k, id :: Busy(u, k, id) ==> Busy(w, k, id)
    ensures Inv(u)
  {
    hide Conserved, LogMatches;
    forall i | 0 <= i < |u.entries| ensures ChargesOwner(u, i) {
      if i < |w.entries| {
        assert u.entries[i] == w.entries[i] && ChargesOwner(w, i);
      }
    }
    forall id, i | 0 <= i < |u.entries| && PaidBy(u, id, i)
      ensures i < |w.entries| && PaidBy(w, id, i)
    {
    }
    forall id, i | 0 <= i < |w.entries| && PaidBy(w, id, i)
      ensures PaidBy(u, id, i)
    {
    }
  }

  lemma ClaimStep(w: World, k: WorkerId, limits: Limits, now: nat)
    requires Inv(w) && Enabled(w, Claim(k, limits, now))
    requires Claims(w.messages, w.ledger.usage, w.workers[k].queue[0], limits, now)
    ensures Inv(Step(w, Claim(k, limits, now)))
  {
    hide Conserved, Fits, Charged;
    var id := w.workers[k].queue[0];
    var c := ChargeFor(w.messages[id], limits, now);
    var u := Step(w, Claim(k, limits, now));
    NextConserves(w.ledger, Send(c));
    assert !Claimed(w, id);
    var n := |w.entries|;
    assert PaidBy(u, id, n);
    forall i | 0 <= i < |u.entries| ensures ChargesOwner(u, i) {
      if i < |w.entries| {
        assert u.entries[i] == w.entries[i] && ChargesOwner(w, i);
      }
    }
    forall other, i | 0 <= i < |u.entries| && PaidBy(u, other, i)
      ensures (i < n && PaidBy(w, other, i)) || (i == n && other == id)
    {
    }
    forall other, i | 0 <= i < n && PaidBy(w, other, i)
      ensures PaidBy(u, other, i)
    {
    }
    forall j, other | Busy(u, j, other)
      ensures if j == k then other == id else Busy(w, j, other)
    {
    }
  }

  lemma DeliverStep(w: World, k: WorkerId, relay: bool, result: Status)
    requires Inv(w) && Enabled(w, Deliver(k, relay, result))
    ensures Inv(Step(w, Deliver(k, relay, result)))
  {
    hide Conserved;
    var id := w.workers[k].id;
    var u := Step(w, Deliver(k, relay, result));
    assert Busy(w, k, id);
    forall i | 0 <= i < |u.entries| ensures ChargesOwner(u, i) {
      if i < |w.entries| {
        assert u.entries[i] == w.entries[i] && ChargesOwner(w, i);
      }
    }
    forall j, other | Busy(u, j, other)
      ensures j != k && Busy(w, j, other)
    {
    }
    forall other ensures Claimed(u, other) <==> Claimed(w, other) {
      assert forall i :: 0 <= i < |w.entries| ==> (PaidBy(u, other, i) <==> PaidBy(w, other, i));
    }
    assert forall other, i :: 0 <= i < |w.entries| ==> (PaidBy(u, other, i) <==> PaidBy(w, other, i));
  }

  /** The environment's steps on messages. */
  lemma MessageStep(w: World, op: Op)
    requires Inv(w) && Enabled(w, op) && (op.Create? || op.Resend? || op.RecordResult? || op.Delete?)
    ensures Inv(Step(w, op))
  {
    hide Conserved;
    QuietStep(w, Step(w, op));
  }

  /** Polling, skipping and refused claims. */
  lemma WorkerStep(w: World, op: Op)
    requires Inv(w) && Enabled(w, op)
    requires op.Poll? || op.Skip? ||
             (op.Claim? && !Claims(w.messages, w.ledger.usage, w.workers[op.worker].queue[0], op.limits, op.now))
    ensures Inv(Step(w, op))
  {
    hide Conserved, Claims;
    QuietStep(w, Step(w, op));
  }

  /** Charges of other senders, and the purge of old counters. */
  lemma LedgerStep(w: World, op: Op)
    requires Inv(w) && Enabled(w, op) && (op.ChargeOther? || op.PurgeUsage?)
    ensures Inv(Step(w, op))
  {
    hide Conserved, Timely, Fits;
    NextConserves(w.ledger, if op.ChargeOther? then Send(op.charge) else Purge(op.now));
    QuietStep(w, Step(w, op));
  }

  lemma StepKeeps(w: World, op: Op)
    requires Inv(w) && Enabled(w, op)
    ensures Inv(Step(w, op))
  {
    hide Inv, Step;
    match op
    case Claim(k, limits, now) =>
      if Claims(w.messages, w.ledger.usage, w.workers[k].queue[0], limits, now) {
        ClaimStep(w, k, limits, now);
      } else {
        WorkerStep(w, op);
      }
    case Deliver(k, relay, result) => DeliverStep(w, k, relay, result);
    case Poll(_, _) => WorkerStep(w, op);
    case Skip(_) => WorkerStep(w, op);
    case ChargeOther(_) => LedgerStep(w, op);
    case PurgeUsage(_) => LedgerStep(w, op);
    case _ => MessageStep(w, op);
  }

  ghost predicate Start(w: World) {
    && w.messages == map[] && w.entries == [] && w.handedOff == [] && w.ledger == EMPTY
    && forall k :: k in w.workers ==> w.workers[k].Idle?
  }

  ghost predicate Runnable(w: World, ops: seq<Op>)
    decreases |ops|
  {
    ops == [] || (Enabled(w, ops[0]) && Runnable(Step(w, ops[0]), ops[1..]))
  }

  ghost function Run(w: World, ops: seq<Op>): World
    requires Runnable(w, ops)
    decreases |ops|
  {
    if ops == [] then w else Run(Step(w, ops[0]), ops[1..])
  }

  lemma {:induction false} RunKeeps(w: World, ops: seq<Op>)
    requires Inv(w) && Runnable(w, ops)
    ensures Inv(Run(w, ops))
    decreases |ops|
  {
    hide Inv, Enabled, Step;
    if ops != [] {
      StepKeeps(w, ops[0]);
      RunKeeps(Step(w, ops[0]), ops[1..]);
    }
  }

  lemma StartInv(w: World)
    requires Start(w)
    ensures Inv(w)
  {
    assert forall id :: !Claimed(w, id);
  }

  /** The counters a message uses at `now`: those of its workspace and mailbox,
      for the day and the month, whose limit is positive. */
  predicate Uses(m: Message, limits: Limits, now: nat, key: UsageKey) {
    && key.workspace == m.workspace
    && match key.scope
       case WorkspaceDay => limits.workspaceDaily > 0 && key.period == DayStart(now)
       case WorkspaceMonth => limits.workspaceMonthly > 0 && key.period == MonthStart(now)
       case MailboxDay(mailbox) => limits.mailboxDaily > 0 && mailbox == m.mailbox && key.period == DayStart(now)
       case MailboxMonth(mailbox) => limits.mailboxMonthly > 0 && mailbox == m.mailbox && key.period == MonthStart(now)
  }

  lemma ChargeUses(c: Charge, m: Message, key: UsageKey)
    requires c.workspace == m.workspace && c.mailbox == m.mailbox
    ensures key in Keys(c) <==> Uses(m, c.limits, c.now, key)
  {
    hide DayStart, MonthStart;
    var rs := Reservations(c);
    assert rs[0] in rs && rs[1] in rs && rs[2] in rs && rs[3] in rs;
    if key in Keys(c) {
      var r :| r in rs && r.limit > 0 && r.key == key;
      assert r == rs[0] || r == rs[1] || r == rs[2] || r == rs[3];
    }
  }

  /** Entry `n` is the one that paid for the message, on exactly the counters of
      the workspace and mailbox the message was created in. */
  ghost predicate PaidOnce(w: World, id: EmailId, n: nat) {
    && n < |w.entries| && id in w.born && PaidBy(w, id, n)
    && (forall m :: 0 <= m < |w.entries| && PaidBy(w, id, m) ==> m == n)
    && var c := w.entries[n].charge;
    && n < |w.ledger.log| && w.ledger.log[n] == c
    && forall key :: key in Keys(c) <==> Uses(w.born[id], c.limits, c.now, key)
  }

  /** Over any interleaving each message is handed to the relay at most once by
      the scheduler, and each hand-off was paid by exactly one charge, on the
      message's own enabled counters. */
  lemma HandedOffOnce(start: World, ops: seq<Op>, i: nat)
    requires Start(start) && Runnable(start, ops) && i < |Run(start, ops).handedOff|
    ensures var w := Run(start, ops);
            && (forall j :: 0 <= j < |w.handedOff| && w.handedOff[j] == w.handedOff[i] ==> j == i)
            && exists n :: PaidOnce(w, w.handedOff[i], n)
  {
    hide Runnable, Run, Conserved, Keys, Uses;
    StartInv(start);
    RunKeeps(start, ops);
    var w := Run(start, ops);
    var id := w.handedOff[i];
    assert id in w.handedOff;
    var n :| 0 <= n < |w.entries| && PaidBy(w, id, n);
    assert ChargesOwner(w, n);
    forall key ensures key in Keys(w.entries[n].charge) <==>
        Uses(w.born[id], w.entries[n].charge.limits, w.entries[n].charge.now, key) {
      ChargeUses(w.entries[n].charge, w.born[id], key);
    }
    assert PaidOnce(w, id, n);
  }

  /** And every counter row is exactly the number of charges on it. */
  lemma CountersMatchCharges(start: World, ops: seq<Op>, key: UsageKey)
    requires Start(start) && Runnable(start, ops)
    ensures var w := Run(start, ops);
            LogMatches(w) && (key in w.ledger.usage ==> w.ledger.usage[key] == Count(w.ledger.log, key))
  {
    hide Runnable, Run, LogMatches;
    StartInv(start);
    RunKeeps(start, ops);
  }

  /** A claim adds one unit to each enabled counter of the message's workspace
      and mailbox and nothing else; a refused one leaves the message scheduled
      and every counter as it was. It succeeds exactly when the message is still
      scheduled and each of those counters is new or below its limit. */
  lemma ClaimChargesOnce(w: World, k: WorkerId, limits: Limits, now: nat)
    requires Enabled(w, Claim(k, limits, now))
    ensures var id := w.workers[k].queue[0];
            var u := Step(w, Claim(k, limits, now));
            if id in w.messages && w.messages[id].status.Scheduled?
               && (forall key :: Uses(w.messages[id], limits, now, key) && key in w.ledger.usage ==>
                     w.ledger.usage[key] < LimitOf(limits, key.scope)) then
              && u.messages == w.messages[id := w.messages[id].(status := Pending)]
              && forall key ::
                   CountOf(u.ledger.usage, key) ==
                   CountOf(w.ledger.usage, key) + if Uses(w.messages[id], limits, now, key) then 1 else 0
            else u.messages == w.messages && u.ledger == w.ledger && u.entries == w.entries
  {
    hide Keys, Fits, Uses;
    var id := w.workers[k].queue[0];
    if id in w.messages {
      var m := w.messages[id];
      var c := ChargeFor(m, limits, now);
      ClaimFits(w.ledger.usage, m, limits, now);
      forall key ensures key in Keys(c) <==> Uses(m, limits, now, key) {
        ChargeUses(c, m, key);
      }
    }
  }

  lemma ClaimFits(usage: Usage, m: Message, limits: Limits, now: nat)
    ensures Fits(usage, ChargeFor(m, limits, now)) <==>
              forall key :: Uses(m, limits, now, key) && key in usage ==> usage[key] < LimitOf(limits, key.scope)
  {
    hide DayStart, MonthStart;
    var c := ChargeFor(m, limits, now);
    forall key ensures key in Keys(c) <==> Uses(m, limits, now, key) {
      ChargeUses(c, m, key);
    }
    forall r | r in Reservations(c) && r.limit > 0
      ensures r.key in Keys(c) && r.limit == LimitOf(limits, r.key.scope)
    {
    }
    forall key | key in Keys(c)
      ensures exists r :: r in Reservations(c) && r.limit > 0 && r.key == key
    {
    }
  }

  // ---- no claim is lost ----

  /** The messages a step sends back because there is no relay. */
  ghost function Unrelayed(w: World, op: Op): set<EmailId>
    requires Enabled(w, op)
  {
    if op.Deliver? && !op.relay then {w.workers[op.worker].id} else {}
  }

  ghost function AllUnrelayed(w: World, ops: seq<Op>): set<EmailId>
    requires Runnable(w, ops)
    decreases |ops|
  {
    if ops == [] then {} else Unrelayed(w, ops[0]) + AllUnrelayed(Step(w, ops[0]), ops[1..])
  }

  /** A claimed message is with a worker, was handed to the relay, or met none. */
  ghost predicate Accounted(w: World, unrelayed: set<EmailId>) {
    forall id :: Claimed(w, id) ==> id in w.handedOff || id in unrelayed || exists k :: Busy(w, k, id)
  }

  /** What a delivery does with the claimed message: with a relay it is handed off
      and carries the relay's result; without one it is not, and says so. No
      other message changes. */
  lemma DeliverHandsOff(w: World, k: WorkerId, relay: bool, result: Status)
    requires Enabled(w, Deliver(k, relay, result))
    ensures var id, u := w.workers[k].id, Step(w, Deliver(k, relay, result));
            && u.handedOff == (if relay then w.handedOff + [id] else w.handedOff)
            && (id in w.messages ==>
                  id in u.messages && u.messages[id].status == if relay then result else NotConfigured)
            && (forall other :: other != id ==> (other in u.messages <==> other in w.messages))
            && (forall other :: other != id && other in w.messages ==> u.messages[other] == w.messages[other])
            && u.ledger == w.ledger && u.entries == w.entries
            && !u.workers[k].Sending?
  {
  }

  lemma ClaimedAfter(w: World, op: Op, id: EmailId)
    requires Enabled(w, op) && Claimed(Step(w, op), id)
    ensures Claimed(w, id) || (op.Claim? && Busy(Step(w, op), op.worker, id))
  {
    hide Next, Fits;
    var u := Step(w, op);
    var i :| 0 <= i < |u.entries| && PaidBy(u, id, i);
    if i < |w.entries| {
      assert PaidBy(w, id, i);
    }
  }

  lemma BusyAfter(w: World, op: Op, k: WorkerId, id: EmailId)
    requires Enabled(w, op) && Busy(w, k, id)
    ensures var u := Step(w, op);
            Busy(u, k, id) || id in u.handedOff || id in Unrelayed(w, op)
  {
    hide Next, Fits;
  }

  lemma HandedOffStays(w: World, op: Op)
    requires Enabled(w, op)
    ensures forall id :: id in w.handedOff ==> id in Step(w, op).handedOff
  {
    hide Next, Fits;
  }

  lemma StepAccounts(w: World, op: Op, unrelayed: set<EmailId>)
    requires Enabled(w, op) && Accounted(w, unrelayed)
    ensures Accounted(Step(w, op), unrelayed + Unrelayed(w, op))
  {
    hide Step, Claimed, Busy, Unrelayed, Enabled;
    HandedOffStays(w, op);
    forall id | Claimed(Step(w, op), id)
      ensures || id in Step(w, op).handedOff || id in unrelayed + Unrelayed(w, op)
              || exists k :: Busy(Step(w, op), k, id)
    {
      ClaimedAfter(w, op, id);
      if k :| Busy(w, k, id) {
        BusyAfter(w, op, k, id);
      }
    }
  }

  lemma {:induction false} RunAccounts(w: World, ops: seq<Op>, unrelayed: set<EmailId>)
    requires Runnable(w, ops) && Accounted(w, unrelayed)
    ensures Accounted(Run(w, ops), unrelayed + AllUnrelayed(w, ops))
    decreases |ops|
  {
    hide Step, Enabled, Accounted, Unrelayed;
    if ops == [] {
      assert unrelayed + AllUnrelayed(w, ops) == unrelayed;
    } else {
      StepAccounts(w, ops[0], unrelayed);
      RunAccounts(Step(w, ops[0]), ops[1..], unrelayed + Unrelayed(w, ops[0]));
      assert unrelayed + AllUnrelayed(w, ops)
          == unrelayed + Unrelayed(w, ops[0]) + AllUnrelayed(Step(w, ops[0]), ops[1..]);
    }
  }

  /** Over any interleaving no paid claim is lost: each is still with a worker, was
      handed to the relay, or came to a delivery without a relay. */
  lemma NoClaimIsLost(start: World, ops: seq<Op>)
    requires Start(start) && Runnable(start, ops)
    ensures Accounted(Run(start, ops), AllUnrelayed(start, ops))
  {
    hide Runnable, Run, AllUnrelayed;
    assert forall id :: !Claimed(start, id);
    RunAccounts(start, ops, {});
    assert {} + AllUnrelayed(start, ops) == AllUnrelayed(start, ops);
  }
}
