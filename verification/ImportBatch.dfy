/** Batch import: the loop over the items, its maps, and the table it fills.
    Message ids are taken as already normalised; the empty string is an absent
    id. */
module ImportBatch {
  import Text
  import opened Wrappers

  datatype Mailbox = Mailbox(id: string, account: nat)

  /** What the insert transaction meets besides the unique index: nothing, a
      concurrent import that won the index entry, or another error. */
  datatype Insert = Stored | Raced | Fault

  /** What the rest of the service answers while one item is handled. */
  datatype Answers = Answers(mailbox: Option<Mailbox>, countOk: bool, attachmentsOk: bool,
                             lookupOk: bool, insert: Insert, newThread: string, newEmail: string)

  datatype Item = Item(from: string, messageId: string, inReplyTo: seq<string>, references: seq<string>, env: Answers)

  /** A row of the emails table; `thread` is "" when the column is NULL and
      `live` says that the row is not soft-deleted. */
  datatype Row = Row(account: nat, mailbox: string, messageId: string, thread: string, id: string, live: bool)

  datatype Status = Imported | Duplicate | Failed

  datatype ItemResult = ItemResult(index: nat, status: Status, emailId: string)

  datatype ImportResult = ImportResult(imported: nat, duplicates: nat, failed: nat, items: seq<ItemResult>)

  /** The emails table, oldest row first, and the variables of the import loop. */
  datatype Batch = Batch(rows: seq<Row>, seen: set<(string, string)>, batchThreads: map<string, string>,
                         referenced: map<string, string>, result: ImportResult)

  const MAX_IMPORT: nat := 500

  // ---- the reply chain of one item ----

  function Present(ids: seq<string>): seq<string> {
    if ids == [] then []
    else (if ids[0] == "" then [] else [ids[0]]) + Present(ids[1..])
  }

  function PresentBackwards(ids: seq<string>): seq<string> {
    if ids == [] then []
    else (if ids[|ids| - 1] == "" then [] else [ids[|ids| - 1]]) + PresentBackwards(ids[..|ids| - 1])
  }

  /** In-Reply-To, then References with the nearest ancestor first. */
  function Candidates(item: Item): seq<string> {
    Present(item.inReplyTo) + PresentBackwards(item.references)
  }

  function FirstKnown(candidates: seq<string>, threads: map<string, string>): string {
    if candidates == [] then ""
    else if candidates[0] in threads then threads[candidates[0]]
    else FirstKnown(candidates[1..], threads)
  }

  predicate Matches(r: Row, account: nat, id: string) {
    r.live && r.account == account && r.messageId == id
  }

  /** The oldest live row of the account that carries the id, or `|rows|`. */
  function Oldest(rows: seq<Row>, account: nat, id: string): (k: nat)
    ensures k <= |rows|
    ensures k < |rows| ==> Matches(rows[k], account, id)
    ensures forall j :: 0 <= j < k ==> !Matches(rows[j], account, id)
  {
    if rows == [] then 0
    else if Matches(rows[0], account, id) then 0
    else
      var k := Oldest(rows[1..], account, id);
      assert forall j :: 0 < j < k + 1 ==> rows[j] == rows[1..][j - 1];
      k + 1
  }

  function ThreadOrOwn(r: Row): string {
    if Text.Trim(r.thread) != "" then r.thread else r.id
  }

  /** The thread the account's table gives the first candidate it holds. */
  function StoredThread(rows: seq<Row>, account: nat, candidates: seq<string>): string {
    if candidates == [] then ""
    else
      var k := Oldest(rows, account, candidates[0]);
      if k < |rows| then ThreadOrOwn(rows[k]) else StoredThread(rows, account, candidates[1..])
  }

  /** A parent without a thread is made the root of its own. */
  function Promoted(rows: seq<Row>, account: nat, candidates: seq<string>): (r: seq<Row>)
    ensures |r| == |rows|
  {
    if candidates == [] then rows
    else
      var k := Oldest(rows, account, candidates[0]);
      if k < |rows| then rows[k := rows[k].(thread := ThreadOrOwn(rows[k]))]
      else Promoted(rows, account, candidates[1..])
  }

  /** Candidates not seen yet wait for the message they name. */
  function Await(referenced: map<string, string>, known: map<string, string>, candidates: seq<string>,
      thread: string): map<string, string>
    decreases |candidates|
  {
    if candidates == [] then referenced
    else
      var c := candidates[0];
      Await(if c in known || c in referenced then referenced
          else referenced[c := thread], known, candidates[1..], thread)
  }

  // ---- one item ----

  function Report(s: Batch, index: nat, status: Status, emailId: string): Batch {
    var r := s.result;
    s.(result := ImportResult(
      r.imported + (if status == Imported then 1 else 0),
      r.duplicates + (if status == Duplicate then 1 else 0),
      r.failed + (if status == Failed then 1 else 0),
      r.items + [ItemResult(index, status, emailId)]))
  }

  /** The key of a row or an item under the unique index. */
  predicate Keyed(r: Row, key: (string, string)) {
    r.messageId != "" && (r.mailbox, r.messageId) == key
  }

  predicate HoldsLive(rows: seq<Row>, key: (string, string)) {
    exists k :: 0 <= k < |rows| && rows[k].live && Keyed(rows[k], key)
  }

  /** The unique index also covers soft-deleted rows. */
  predicate Holds(rows: seq<Row>, key: (string, string)) {
    exists k :: 0 <= k < |rows| && Keyed(rows[k], key)
  }

  predicate Admitted(item: Item) {
    Text.Trim(item.from) != "" && item.env.mailbox.Some?
  }

  function Key(item: Item): (string, string)
    requires item.env.mailbox.Some?
  {
    (item.env.mailbox.value.id, item.messageId)
  }

  function ChosenThread(s: Batch, item: Item): string
    requires item.env.mailbox.Some?
  {
    var batch := FirstKnown(Candidates(item), s.batchThreads);
    var stored := if batch != "" then batch else StoredThread(s.rows, item.env.mailbox.value.account, Candidates(item));
    var joined :=
      if stored != "" then stored
      else if item.messageId != "" && item.messageId in s.referenced then s.referenced[item.messageId]
      else "";
    if joined != "" then joined else item.env.newThread
  }

  function NewRow(item: Item, thread: string): Row
    requires item.env.mailbox.Some?
  {
    var m := item.env.mailbox.value;
    Row(m.account, m.id, item.messageId, thread, item.env.newEmail, true)
  }

  /** Threading and insertion, for an item that passed the gates before them. */
  function File(s: Batch, index: nat, item: Item): Batch
    requires item.env.mailbox.Some?
  {
    var candidates := Candidates(item);
    var inBatch := FirstKnown(candidates, s.batchThreads) != "";
    if !inBatch && candidates != [] && !item.env.lookupOk then Report(s, index, Failed, "")
    else
      var account := item.env.mailbox.value.account;
      var thread := ChosenThread(s, item);
      var t := s.(
        rows := if inBatch then s.rows else Promoted(s.rows, account, candidates),
        referenced := Await(s.referenced, s.batchThreads, candidates, thread),
        batchThreads := if item.messageId == "" then s.batchThreads else s.batchThreads[item.messageId := thread]);
      if (item.messageId != "" && Holds(t.rows, Key(item))) || item.env.insert.Raced?
          then Report(t, index, Duplicate, "")
      else if item.env.insert.Fault? then Report(t, index, Failed, "")
      else Report(t.(rows := t.rows + [NewRow(item, thread)]), index, Imported, item.env.newEmail)
  }

  function ImportOne(s: Batch, index: nat, item: Item, dedupe: bool): Batch {
    if !Admitted(item) then Report(s, index, Failed, "")
    else if dedupe && item.messageId != "" then
      if Key(item) in s.seen then Report(s, index, Duplicate, "")
      else if !item.env.countOk then Report(s, index, Failed, "")
      else if HoldsLive(s.rows, Key(item)) then Report(s, index, Duplicate, "")
      else
        var t := s.(seen := s.seen + {Key(item)});
        if !item.env.attachmentsOk then Report(t, index, Failed, "") else File(t, index, item)
    else if !item.env.attachmentsOk then Report(s, index, Failed, "")
    else File(s, index, item)
  }

  function Start(rows: seq<Row>): Batch {
    Batch(rows, {}, map[], map[], ImportResult(0, 0, 0, []))
  }

  /** The batch after its first `n` items. */
  function After(rows: seq<Row>, items: seq<Item>, dedupe: bool, n: nat): Batch
    requires n <= |items|
  {
    if n == 0 then Start(rows) else ImportOne(After(rows, items, dedupe, n - 1), n - 1, items[n - 1], dedupe)
  }

  // ---- the service call ----

  datatype Reply = Rejected | Done(result: ImportResult)

  class EmailTable {
    var rows: seq<Row>

    /** The account's thread for the first candidate it holds, promoting a parent
        that had none. */
    method FindThreadByMessageID(account: nat, candidates: seq<string>) returns (thread: string)
      modifies this
      ensures thread == StoredThread(old(rows), account, candidates)
      ensures rows == Promoted(old(rows), account, candidates)
    {
      var i := 0;
      while i < |candidates|
        invariant 0 <= i <= |candidates| && rows == old(rows)
        invariant StoredThread(rows, account, candidates) == StoredThread(rows, account, candidates[i..])
        invariant Promoted(rows, account, candidates) == Promoted(rows, account, candidates[i..])
      {
        assert candidates[i..][0] == candidates[i] && candidates[i..][1..] == candidates[i + 1..];
        var k := Oldest(rows, account, candidates[i]);
        if k < |rows| {
          var parent := rows[k];
          if Text.Trim(parent.thread) != "" {
            assert rows[k := parent.(thread := ThreadOrOwn(parent))] == rows;
            return parent.thread;
          }
          rows := rows[k := parent.(thread := parent.id)];
          return parent.id;
        }
        i := i + 1;
      }
      return "";
    }

    method ImportEmails(mode: string, items: seq<Item>) returns (reply: Reply)
      modifies this
      ensures reply.Rejected? <==> Text.Trim(mode) !in ["", "message_id", "off"] || |items| == 0 || |items| > MAX_IMPORT
      ensures reply.Rejected? ==> rows == old(rows)
      ensures reply.Done? ==>
                var s := After(old(rows), items, Text.Trim(mode) != "off", |items|);
                rows == s.rows && reply.result == s.result
    {
      var trimmed := Text.Trim(mode);
      if trimmed == "" {
        trimmed := "message_id";
      }
      if trimmed != "message_id" && trimmed != "off" {
        return Rejected;
      }
      if |items| == 0 || |items| > MAX_IMPORT {
        return Rejected;
      }
      var dedupe := trimmed == "message_id";
      var s := Start(rows);
      var i := 0;
      while i < |items|
        invariant 0 <= i <= |items|
        invariant s.rows == rows && s == After(old(rows), items, dedupe, i)
      {
        s := Handle(s, i, items[i], dedupe);
        i := i + 1;
      }
      return Done(s.result);
    }

    /** One pass of the import loop over the table and the loop's variables. */
    method Handle(s: Batch, index: nat, item: Item, dedupe: bool) returns (t: Batch)
      requires s.rows == rows
      modifies this
      ensures t == ImportOne(s, index, item, dedupe) && t.rows == rows
    {
      t := s;
      if Text.Trim(item.from) == "" || item.env.mailbox.None? {
        return Report(t, index, Failed, "");
      }
      var mailbox := item.env.mailbox.value;
      if dedupe && item.messageId != "" {
        var key := (mailbox.id, item.messageId);
        if key in t.seen {
          return Report(t, index, Duplicate, "");
        }
        if !item.env.countOk {
          return Report(t, index, Failed, "");
        }
        if HoldsLive(rows, key) {
          return Report(t, index, Duplicate, "");
        }
        t := t.(seen := t.seen + {key});
      }
      if !item.env.attachmentsOk {
        return Report(t, index, Failed, "");
      }
      t := Store(t, index, item);
    }

    method Store(s: Batch, index: nat, item: Item) returns (t: Batch)
      requires s.rows == rows && item.env.mailbox.Some?
      modifies this
      ensures t == File(s, index, item) && t.rows == rows
    {
      var mailbox := item.env.mailbox.value;
      var candidates := Candidates(item);
      var thread := BatchThread(candidates, s.batchThreads);
      t := s;
      if thread == "" {
        if candidates != [] && !item.env.lookupOk {
          return Report(t, index, Failed, "");
        }
        thread := FindThreadByMessageID(mailbox.account, candidates);
        t := t.(rows := rows);
      }
      if thread == "" && item.messageId != "" && item.messageId in t.referenced {
        thread := t.referenced[item.messageId];
      }
      if thread == "" {
        thread := item.env.newThread;
      }
      var referenced := Wait(t.referenced, t.batchThreads, candidates, thread);
      t := t.(referenced := referenced);
      if item.messageId != "" {
        t := t.(batchThreads := t.batchThreads[item.messageId := thread]);
      }
      if (item.messageId != "" && Holds(rows, Key(item))) || item.env.insert.Raced? {
        return Report(t, index, Duplicate, "");
      }
      if item.env.insert.Fault? {
        return Report(t, index, Failed, "");
      }
      rows := rows + [NewRow(item, thread)];
      t := Report(t.(rows := rows), index, Imported, item.env.newEmail);
    }
  }

  method BatchThread(candidates: seq<string>, threads: map<string, string>) returns (thread: string)
    ensures thread == FirstKnown(candidates, threads)
  {
    var i := 0;
    while i < |candidates|
      invariant 0 <= i <= |candidates|
      invariant FirstKnown(candidates, threads) == FirstKnown(candidates[i..], threads)
    {
      assert candidates[i..][0] == candidates[i] && candidates[i..][1..] == candidates[i + 1..];
      if candidates[i] in threads {
        return threads[candidates[i]];
      }
      i := i + 1;
    }
    return "";
  }

  method Wait(referenced: map<string, string>, known: map<string, string>, candidates: seq<string>, thread: string)
    returns (r: map<string, string>)
    ensures r == Await(referenced, known, candidates, thread)
  {
    r := referenced;
    var i := 0;
    while i < |candidates|
      invariant 0 <= i <= |candidates|
      invariant Await(referenced, known, candidates, thread) == Await(r, known, candidates[i..], thread)
    {
      assert candidates[i..][0] == candidates[i] && candidates[i..][1..] == candidates[i + 1..];
      if candidates[i] !in known && candidates[i] !in r {
        r := r[candidates[i] := thread];
      }
      i := i + 1;
    }
  }

  // ---- what one pass leaves ----

  function Account(item: Item): nat {
    if item.env.mailbox.Some? then item.env.mailbox.value.account else 0
  }

  /** The rows before the new one: the table, possibly with a promoted parent. */
  function Base(s: Batch, item: Item): seq<Row> {
    if FirstKnown(Candidates(item), s.batchThreads) != "" then s.rows
    else Promoted(s.rows, Account(item), Candidates(item))
  }

  lemma SeenIsIrrelevant(s: Batch, seen: set<(string, string)>, item: Item)
    requires item.env.mailbox.Some?
    ensures ChosenThread(s.(seen := seen), item) == ChosenThread(s, item)
    ensures Base(s.(seen := seen), item) == Base(s, item)
  {
  }

  /** Every pass of the loop reports once; only an imported item adds a row. */
  lemma FileReports(s: Batch, index: nat, item: Item) returns (t: Batch, status: Status, emailId: string)
    requires item.env.mailbox.Some?
    ensures File(s, index, item) == Report(t, index, status, emailId) && t.result == s.result && t.seen == s.seen
    ensures if status == Imported then t.rows == Base(s, item) + [NewRow(item, ChosenThread(s, item))]
            else t.rows == s.rows || t.rows == Base(s, item)
  {
    hide ChosenThread, Promoted, Await, FirstKnown, Holds, Candidates;
    var out := File(s, index, item);
    t := out.(result := s.result);
    var r := out.result.items[|out.result.items| - 1];
    status, emailId := r.status, r.emailId;
  }

  lemma ImportReports(s: Batch, index: nat, item: Item, dedupe: bool) returns (t: Batch, status: Status,
      emailId: string)
    ensures ImportOne(s, index, item, dedupe) == Report(t, index, status, emailId) && t.result == s.result
    ensures if status == Imported then Admitted(item) && t.rows == Base(s, item) + [NewRow(item, ChosenThread(s, item))]
            else t.rows == s.rows || t.rows == Base(s, item)
    ensures s.seen <= t.seen
    ensures t.seen == s.seen || (Admitted(item) && item.messageId != "" && t.seen == s.seen + {Key(item)})
  {
    hide ChosenThread, FirstKnown, HoldsLive, Candidates, Base, File, Report;
    t, emailId := s, "";
    if !Admitted(item) {
      status := Failed;
    } else if !dedupe || item.messageId == "" {
      if item.env.attachmentsOk {
        t, status, emailId := FileReports(s, index, item);
      } else {
        status := Failed;
      }
    } else if Key(item) in s.seen {
      status := Duplicate;
    } else if !item.env.countOk {
      status := Failed;
    } else if HoldsLive(s.rows, Key(item)) {
      status := Duplicate;
    } else {
      t := s.(seen := s.seen + {Key(item)});
      if item.env.attachmentsOk {
        SeenIsIrrelevant(s, t.seen, item);
        t, status, emailId := FileReports(t, index, item);
      } else {
        status := Failed;
      }
    }
  }

  /** Promotion changes no key. */
  lemma {:induction false} PromotionKeepsKeys(rows: seq<Row>, account: nat, candidates: seq<string>,
      key: (string, string))
    ensures Holds(Promoted(rows, account, candidates), key) <==> Holds(rows, key)
    ensures HoldsLive(Promoted(rows, account, candidates), key) <==> HoldsLive(rows, key)
  {
    if candidates != [] {
      PromotionKeepsKeys(rows, account, candidates[1..], key);
      var k := Oldest(rows, account, candidates[0]);
      if k < |rows| {
        var now := Promoted(rows, account, candidates);
        assert forall j :: 0 <= j < |rows| ==>
            (Keyed(now[j], key) <==> Keyed(rows[j], key)) && now[j].live == rows[j].live;
      }
    }
  }

  lemma HoldsAppended(rows: seq<Row>, row: Row, key: (string, string))
    ensures Holds(rows + [row], key) <==> Holds(rows, key) || Keyed(row, key)
    ensures HoldsLive(rows + [row], key) <==> HoldsLive(rows, key) || (row.live && Keyed(row, key))
  {
    var now := rows + [row];
    assert now[|rows|] == row;
    assert forall k :: 0 <= k < |rows| ==> now[k] == rows[k];
  }

  lemma {:induction false} PresentIsPresent(ids: seq<string>)
    ensures "" !in Present(ids)
  {
    if ids != [] { PresentIsPresent(ids[1..]); }
  }

  lemma {:induction false} PresentBackwardsIsPresent(ids: seq<string>)
    ensures "" !in PresentBackwards(ids)
  {
    if ids != [] { PresentBackwardsIsPresent(ids[..|ids| - 1]); }
  }

  lemma CandidatesArePresent(item: Item)
    ensures "" !in Candidates(item)
  {
    PresentIsPresent(item.inReplyTo);
    PresentBackwardsIsPresent(item.references);
  }
}
