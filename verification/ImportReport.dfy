/** What an import reports of its items, and when a reported duplicate is real. */
module ImportReport {
  import opened Wrappers
  import opened ImportBatch
  import Text

  // ---- the report, and duplicates ----

  function Tally(results: seq<ItemResult>, status: Status): nat {
    if results == [] then 0
    else Tally(results[..|results| - 1], status) + (if results[|results| - 1].status == status then 1 else 0)
  }

  /** One entry an item, in order, with counters that count them; the table
      grows by exactly the imported ones. */
  ghost predicate Adds(rows: seq<Row>, s: Batch, n: nat) {
    && |s.result.items| == n
    && (forall k :: 0 <= k < n ==> s.result.items[k].index == k)
    && s.result.imported == Tally(s.result.items, Imported)
    && s.result.duplicates == Tally(s.result.items, Duplicate)
    && s.result.failed == Tally(s.result.items, Failed)
    && s.result.imported + s.result.duplicates + s.result.failed == n
    && |s.rows| == |rows| + s.result.imported
  }

  lemma ReportAdds(rows: seq<Row>, s: Batch, t: Batch, n: nat, status: Status, emailId: string)
    requires Adds(rows, s, n) && t.result == s.result
    requires |t.rows| == |s.rows| + (if status == Imported then 1 else 0)
    ensures Adds(rows, Report(t, n, status, emailId), n + 1)
  {
    var items := Report(t, n, status, emailId).result.items;
    assert items[..|items| - 1] == s.result.items;
  }

  lemma ImportAdds(rows: seq<Row>, s: Batch, n: nat, item: Item, dedupe: bool)
    requires Adds(rows, s, n)
    ensures Adds(rows, ImportOne(s, n, item, dedupe), n + 1)
  {
    hide Adds, ImportOne, ChosenThread;
    var t, status, emailId := ImportReports(s, n, item, dedupe);
    assert |Base(s, item)| == |s.rows|;
    ReportAdds(rows, s, t, n, status, emailId);
  }

  lemma {:induction false} CountsAddUp(rows: seq<Row>, items: seq<Item>, dedupe: bool, n: nat)
    requires n <= |items|
    ensures Adds(rows, After(rows, items, dedupe, n), n)
  {
    if n > 0 {
      CountsAddUp(rows, items, dedupe, n - 1);
      ImportAdds(rows, After(rows, items, dedupe, n - 1), n - 1, items[n - 1], dedupe);
    }
  }

  // ---- which keys a batch with deduplication leaves behind ----

  /** The item passes the sender and mailbox checks under this dedupe key. */
  predicate Claims(item: Item, key: (string, string)) {
    Admitted(item) && item.messageId != "" && Key(item) == key
  }

  /** The item marks its key as seen: it could be looked up, no live row holds
      the key, and no earlier item marked it. */
  ghost predicate Opens(rows: seq<Row>, items: seq<Item>, k: nat)
    requires k < |items|
    decreases k
  {
    && Admitted(items[k]) && items[k].messageId != "" && items[k].env.countOk
    && !HoldsLive(rows, Key(items[k]))
    && forall j :: 0 <= j < k && Claims(items[j], Key(items[k])) ==> !Opens(rows, items, j)
  }

  /** The item gets as far as the insert: its attachments resolve, and a parent
      that no earlier item of the batch supplies can be looked up. */
  ghost predicate Reaches(rows: seq<Row>, items: seq<Item>, k: nat)
    requires k < |items|
    decreases k
  {
    && Opens(rows, items, k) && items[k].env.attachmentsOk
    && (|| items[k].env.lookupOk || Candidates(items[k]) == []
        || exists j :: 0 <= j < k && items[j].messageId in Candidates(items[k]) && Reaches(rows, items, j))
  }

  ghost predicate Seen(rows: seq<Row>, items: seq<Item>, key: (string, string), n: nat)
    requires n <= |items|
  {
    exists j :: 0 <= j < n && Claims(items[j], key) && Opens(rows, items, j)
  }

  ghost predicate Known(rows: seq<Row>, items: seq<Item>, id: string, n: nat)
    requires n <= |items|
  {
    exists j :: 0 <= j < n && items[j].messageId == id && Reaches(rows, items, j)
  }

  /** Some item with the key reached the insert, which stored it. */
  ghost predicate Stores(rows: seq<Row>, items: seq<Item>, key: (string, string), n: nat)
    requires n <= |items|
  {
    exists j :: 0 <= j < n && Claims(items[j], key) && Reaches(rows, items, j) && items[j].env.insert.Stored?
  }

  ghost predicate NamedThreads(items: seq<Item>) {
    forall i :: 0 <= i < |items| ==> items[i].env.newThread != ""
  }

  // ---- one pass, by the loop's variables ----

  /** The pass goes beyond the dedupe gate. */
  ghost predicate Gated(s: Batch, item: Item) {
    && Admitted(item) && item.messageId != "" && Key(item) !in s.seen
    && item.env.countOk && !HoldsLive(s.rows, Key(item))
  }

  ghost predicate Looked(s: Batch, item: Item) {
    item.env.lookupOk || Candidates(item) == [] || FirstKnown(Candidates(item), s.batchThreads) != ""
  }

  ghost predicate Inserts(s: Batch, item: Item) {
    Gated(s, item) && item.env.attachmentsOk && Looked(s, item)
  }

  /** The variables that decide about keys and known ids. */
  ghost predicate Passed(s: Batch, index: nat, item: Item, t: Batch) {
    && t.seen == (if Gated(s, item) then s.seen + {Key(item)} else s.seen)
    && t.batchThreads.Keys == (if Inserts(s, item) then s.batchThreads.Keys + {item.messageId} else s.batchThreads.Keys)
    && (item.env.newThread != "" ==> forall c :: c in t.batchThreads && t.batchThreads[c] == "" ==>
          c in s.batchThreads && s.batchThreads[c] == "")
    && |t.result.items| == index + 1
    && t.result.items[index].status ==
       (if !Admitted(item) then Failed
        else if Key(item) in s.seen then Duplicate
        else if !item.env.countOk then Failed
        else if HoldsLive(s.rows, Key(item)) then Duplicate
        else if !Inserts(s, item) then Failed
        else if Holds(s.rows, Key(item)) || item.env.insert.Raced? then Duplicate
        else if item.env.insert.Fault? then Failed
        else Imported)
  }

  lemma FileMaps(s: Batch, index: nat, item: Item)
    requires item.env.mailbox.Some? && item.messageId != ""
    ensures var t := File(s, index, item);
            && t.seen == s.seen
            && t.batchThreads == if Looked(s, item) then s.batchThreads[item.messageId := ChosenThread(s, item)]
               else s.batchThreads
  {
    hide ChosenThread, Promoted, Await, FirstKnown, Holds, Candidates;
  }

  lemma FileStatus(s: Batch, index: nat, item: Item)
    requires item.env.mailbox.Some? && item.messageId != "" && |s.result.items| == index
    ensures var t := File(s, index, item);
            && |t.result.items| == index + 1
            && t.result.items[index].status ==
               (if !Looked(s, item) then Failed
                else if Holds(s.rows, Key(item)) || item.env.insert.Raced? then Duplicate
                else if item.env.insert.Fault? then Failed
                else Imported)
  {
    PromotionKeepsKeys(s.rows, Account(item), Candidates(item), Key(item));
    hide ChosenThread, Promoted, Await, FirstKnown, Holds, Candidates;
  }

  lemma ThreadIsChosen(s: Batch, item: Item)
    requires item.env.mailbox.Some?
    ensures item.env.newThread != "" ==> ChosenThread(s, item) != ""
  {
  }

  lemma ImportPasses(s: Batch, index: nat, item: Item)
    requires item.messageId != "" && |s.result.items| == index
    ensures Passed(s, index, item, ImportOne(s, index, item, true))
  {
    hide Holds, HoldsLive, FirstKnown, File, Candidates, ChosenThread;
    if Gated(s, item) && item.env.attachmentsOk {
      var marked := s.(seen := s.seen + {Key(item)});
      FileMaps(marked, index, item);
      FileStatus(marked, index, item);
      ThreadIsChosen(marked, item);
    }
  }

  lemma AnonymousPasses(s: Batch, index: nat, item: Item)
    requires item.messageId == "" && |s.result.items| == index
    ensures var t := ImportOne(s, index, item, true);
            t.seen == s.seen && t.batchThreads == s.batchThreads && |t.result.items| == index + 1
  {
    hide ChosenThread, Promoted, Await, FirstKnown, Holds, Candidates;
  }

  /** Only an imported item changes which keys are held. */
  lemma ImportHolds(s: Batch, index: nat, item: Item, key: (string, string))
    requires |s.result.items| == index
    ensures var t := ImportOne(s, index, item, true);
            && |t.result.items| == index + 1
            && var stored := Claims(item, key) && t.result.items[index].status == Imported;
            && (Holds(t.rows, key) <==> Holds(s.rows, key) || stored)
            && (HoldsLive(t.rows, key) <==> HoldsLive(s.rows, key) || stored)
  {
    hide ChosenThread, Promoted, Holds, HoldsLive, Candidates, ImportOne;
    var t, status, emailId := ImportReports(s, index, item, true);
    PromotionKeepsKeys(s.rows, Account(item), Candidates(item), key);
    if status == Imported {
      HoldsAppended(Base(s, item), NewRow(item, ChosenThread(s, item)), key);
    }
  }

  // ---- the loop's variables, by the input ----

  ghost predicate KeyAt(rows: seq<Row>, items: seq<Item>, s: Batch, n: nat, key: (string, string))
    requires n <= |items|
  {
    && (key in s.seen <==> Seen(rows, items, key, n))
    && (!Seen(rows, items, key, n) ==> (HoldsLive(s.rows, key) <==> HoldsLive(rows, key)))
    && (Holds(s.rows, key) <==> Holds(rows, key) || Stores(rows, items, key, n))
  }

  ghost predicate IdAt(rows: seq<Row>, items: seq<Item>, s: Batch, n: nat, id: string)
    requires n <= |items|
  {
    (id in s.batchThreads <==> id != "" && Known(rows, items, id, n))
        && (id in s.batchThreads ==> s.batchThreads[id] != "")
  }

  ghost predicate Tracked(rows: seq<Row>, items: seq<Item>, s: Batch, n: nat)
    requires n <= |items|
  {
    |s.result.items| == n && (forall key :: KeyAt(rows, items, s, n, key)) && (forall id :: IdAt(rows, items, s, n, id))
  }

  lemma SeenMore(rows: seq<Row>, items: seq<Item>, key: (string, string), n: nat)
    requires n < |items|
    ensures Seen(rows, items, key, n + 1) <==>
            Seen(rows, items, key, n) || (Claims(items[n], key) && Opens(rows, items, n))
    ensures Stores(rows, items, key, n + 1) <==>
              Stores(rows, items, key, n)
                  || (Claims(items[n], key) && Reaches(rows, items, n) && items[n].env.insert.Stored?)
  {
    hide Opens, Reaches, Claims;
  }

  lemma KnownMore(rows: seq<Row>, items: seq<Item>, id: string, n: nat)
    requires n < |items|
    ensures Known(rows, items, id, n + 1) <==>
            Known(rows, items, id, n) || (items[n].messageId == id && Reaches(rows, items, n))
  {
    hide Reaches;
  }

  /** What the loop tests is what the input says. */
  lemma GuardsByInput(rows: seq<Row>, items: seq<Item>, s: Batch, n: nat)
    requires n < |items| && Tracked(rows, items, s, n) && items[n].messageId != ""
    ensures Gated(s, items[n]) <==> Opens(rows, items, n)
    ensures Inserts(s, items[n]) <==> Reaches(rows, items, n)
  {
    var item := items[n];
    hide HoldsLive, Holds, Candidates;
    if Admitted(item) {
      assert KeyAt(rows, items, s, n, Key(item));
      assert Seen(rows, items, Key(item), n) <==>
          exists j :: 0 <= j < n && Claims(items[j], Key(item)) && Opens(rows, items, j);
    }
    CandidatesArePresent(item);
    LookedByInput(rows, items, s, n, Candidates(item));
  }

  lemma {:induction false} LookedByInput(rows: seq<Row>, items: seq<Item>, s: Batch, n: nat, candidates: seq<string>)
    requires n < |items| && Tracked(rows, items, s, n) && "" !in candidates
    ensures FirstKnown(candidates, s.batchThreads) != "" <==>
              exists j :: 0 <= j < n && items[j].messageId in candidates && Reaches(rows, items, j)
  {
    hide Reaches, KeyAt;
    if candidates != [] {
      LookedByInput(rows, items, s, n, candidates[1..]);
      assert IdAt(rows, items, s, n, candidates[0]);
      assert candidates[0] in candidates;
      assert forall c :: c in candidates <==> c == candidates[0] || c in candidates[1..];
      assert Known(rows, items, candidates[0], n) <==>
          exists j :: 0 <= j < n && items[j].messageId == candidates[0] && Reaches(rows, items, j);
    }
  }

  lemma KeyStep(rows: seq<Row>, items: seq<Item>, s: Batch, n: nat, t: Batch, key: (string, string))
    requires n < |items| && Tracked(rows, items, s, n) && t == ImportOne(s, n, items[n], true)
    ensures KeyAt(rows, items, t, n + 1, key)
  {
    var item := items[n];
    hide ImportOne, Holds, HoldsLive, Inserts, Gated, Opens, Reaches, Seen, Stores, IdAt;
    assert KeyAt(rows, items, s, n, key);
    SeenMore(rows, items, key, n);
    ImportHolds(s, n, item, key);
    if item.messageId == "" {
      AnonymousPasses(s, n, item);
    } else {
      ImportPasses(s, n, item);
      GuardsByInput(rows, items, s, n);
      if Claims(item, key) {
        GuardFacts(rows, items, s, n);
      }
    }
  }

  lemma GuardFacts(rows: seq<Row>, items: seq<Item>, s: Batch, n: nat)
    requires n < |items|
    ensures Gated(s, items[n]) ==>
              && Admitted(items[n]) && Key(items[n]) !in s.seen
              && items[n].env.countOk && !HoldsLive(s.rows, Key(items[n]))
    ensures Inserts(s, items[n]) ==> Gated(s, items[n])
    ensures Reaches(rows, items, n) ==> Opens(rows, items, n)
  {
    hide HoldsLive;
  }

  lemma IdStep(rows: seq<Row>, items: seq<Item>, s: Batch, n: nat, t: Batch, id: string)
    requires n < |items| && NamedThreads(items) && Tracked(rows, items, s, n) && t == ImportOne(s, n, items[n], true)
    ensures IdAt(rows, items, t, n + 1, id)
  {
    hide ImportOne, Holds, HoldsLive, Inserts, Gated, Opens, Reaches, Known, KeyAt;
    assert IdAt(rows, items, s, n, id);
    KnownMore(rows, items, id, n);
    if items[n].messageId == "" {
      AnonymousPasses(s, n, items[n]);
    } else {
      ImportPasses(s, n, items[n]);
      GuardsByInput(rows, items, s, n);
    }
  }

  lemma {:induction false} BatchIsTracked(rows: seq<Row>, items: seq<Item>, n: nat)
    requires n <= |items| && NamedThreads(items)
    ensures Tracked(rows, items, After(rows, items, true, n), n)
  {
    hide ImportOne, KeyAt, IdAt, NamedThreads;
    if n == 0 {
      StartIsTracked(rows, items);
    } else {
      var s, t := After(rows, items, true, n - 1), After(rows, items, true, n);
      BatchIsTracked(rows, items, n - 1);
      ImportHolds(s, n - 1, items[n - 1], ("", ""));
      forall key ensures KeyAt(rows, items, t, n, key) {
        KeyStep(rows, items, s, n - 1, t, key);
      }
      forall id ensures IdAt(rows, items, t, n, id) {
        IdStep(rows, items, s, n - 1, t, id);
      }
    }
  }

  lemma StartIsTracked(rows: seq<Row>, items: seq<Item>)
    ensures Tracked(rows, items, Start(rows), 0)
  {
  }

  function StatusOf(rows: seq<Row>, items: seq<Item>, i: nat): Status
    requires i < |items|
  {
    var results := After(rows, items, true, i + 1).result.items;
    if i < |results| then results[i].status else Failed
  }

  /** The keys held after a batch, by the input: those held before, and those
      whose first marking item reached the insert and was stored. */
  lemma HeldAfterBatch(rows: seq<Row>, items: seq<Item>, key: (string, string))
    requires NamedThreads(items)
    ensures Holds(After(rows, items, true, |items|).rows, key) <==>
            Holds(rows, key) || Stores(rows, items, key, |items|)
  {
    hide Holds, HoldsLive, Seen, Stores, IdAt;
    BatchIsTracked(rows, items, |items|);
    assert KeyAt(rows, items, After(rows, items, true, |items|), |items|, key);
  }

  /** What is reported of an item with a message id, by the input. */
  lemma StatusByInput(rows: seq<Row>, items: seq<Item>, i: nat)
    requires NamedThreads(items) && i < |items| && items[i].messageId != "" && Admitted(items[i])
    ensures var key := Key(items[i]);
            StatusOf(rows, items, i) ==
            (if Seen(rows, items, key, i) then Duplicate
             else if !items[i].env.countOk then Failed
             else if HoldsLive(rows, key) then Duplicate
             else if !Reaches(rows, items, i) then Failed
             else if Holds(rows, key) || items[i].env.insert.Raced? then Duplicate
             else if items[i].env.insert.Fault? then Failed
             else Imported)
  {
    hide Holds, HoldsLive, Seen, Stores, IdAt, Reaches, Opens, ImportOne, Gated, Inserts;
    var s := After(rows, items, true, i);
    BatchIsTracked(rows, items, i);
    assert KeyAt(rows, items, s, i, Key(items[i]));
    ImportPasses(s, i, items[i]);
    GuardsByInput(rows, items, s, i);
    StoredWasSeen(rows, items, Key(items[i]), i);
  }

  lemma StoredWasSeen(rows: seq<Row>, items: seq<Item>, key: (string, string), n: nat)
    requires n <= |items|
    ensures Stores(rows, items, key, n) ==> Seen(rows, items, key, n)
  {
    hide Claims, HoldsLive;
  }

  lemma OnlyOneOpens(rows: seq<Row>, items: seq<Item>, key: (string, string), i: nat, j: nat)
    requires i < |items| && j < |items| && Claims(items[i], key) && Claims(items[j], key)
    requires Opens(rows, items, i) && Opens(rows, items, j)
    ensures i == j
  {
    hide HoldsLive;
  }

  /** The item that marks a key decides about it: every later item with the key
      is reported a duplicate, and that is true of the table exactly when the
      marking item's attachments resolved, its lookup (if one was needed) worked
      and its insert was stored, or a deleted row keeps the key. After a raced
      insert the key is held by the rival's row, which is not one of these. */
  lemma DuplicateIsReal(rows: seq<Row>, items: seq<Item>, first: nat, later: nat, key: (string, string))
    requires NamedThreads(items) && first < later < |items|
    requires Claims(items[first], key) && Opens(rows, items, first) && Claims(items[later], key)
    ensures StatusOf(rows, items, later) == Duplicate
    ensures Holds(After(rows, items, true, |items|).rows, key) <==>
              Holds(rows, key) || (Reaches(rows, items, first) && items[first].env.insert.Stored?)
  {
    hide Holds, HoldsLive, Opens;
    HeldAfterBatch(rows, items, key);
    StatusByInput(rows, items, later);
    assert Seen(rows, items, key, later);
    if Stores(rows, items, key, |items|) {
      var j :| 0 <= j < |items| && Claims(items[j], key) && Reaches(rows, items, j) && items[j].env.insert.Stored?;
      OnlyOneOpens(rows, items, key, first, j);
    }
  }

  /** An item without a sender, or for a mailbox the account may not use, fails
      and leaves everything else as it was. */
  lemma UnadmittedFails(s: Batch, index: nat, item: Item, dedupe: bool)
    requires Text.Trim(item.from) == "" || item.env.mailbox.None?
    ensures ImportOne(s, index, item, dedupe) == Report(s, index, Failed, "")
  {
  }

  /** What is reported of an item that deduplication does not look at. */
  lemma UndedupedStatus(s: Batch, index: nat, item: Item, dedupe: bool)
    requires |s.result.items| == index && Text.Trim(item.from) != "" && item.env.mailbox.Some?
    requires !dedupe || item.messageId == ""
    ensures var t := ImportOne(s, index, item, dedupe);
            && t.seen == s.seen && |t.result.items| == index + 1
            && t.result.items[index].status ==
               (if !item.env.attachmentsOk || !Looked(s, item) then Failed
                else if (item.messageId != "" && Holds(s.rows, Key(item))) || item.env.insert.Raced? then Duplicate
                else if item.env.insert.Fault? then Failed
                else Imported)
  {
    if item.messageId != "" {
      FileStatus(s, index, item);
    }
    hide ChosenThread, Promoted, Await, FirstKnown, Holds, Candidates;
  }

  // ---- batches at which it fails, and at which all goes well ----

  /** An item of mailbox `m` that meets no error. */
  function Plain(id: string, inReplyTo: seq<string>, thread: string): Item {
    Item("a@example.org", id, inReplyTo, [], Answers(Some(Mailbox("m", 1)), true, true, true, Stored, thread, "e"))
  }

  lemma PlainIsAdmitted(id: string, inReplyTo: seq<string>, thread: string)
    ensures Admitted(Plain(id, inReplyTo, thread))
  {
  }

  lemma PlainCandidates(id: string, parent: string, thread: string)
    requires parent != ""
    ensures Candidates(Plain(id, [parent], thread)) == [parent]
    ensures Candidates(Plain(id, [], thread)) == []
  {
    assert Present([parent][1..]) == [];
  }

  /** The ways a first item can mark its id and then fail. */
  datatype Mishap = AttachmentMissing | LookupBroken | InsertBroken

  function Spoiled(mishap: Mishap): Item {
    var item := Plain("x", ["p"], "t1");
    match mishap
    case AttachmentMissing => item.(env := item.env.(attachmentsOk := false))
    case LookupBroken => item.(env := item.env.(lookupOk := false))
    case InsertBroken => item.(env := item.env.(insert := Fault))
  }

  lemma SpoiledFails(mishap: Mishap, again: Item)
    ensures Admitted(Spoiled(mishap)) && Key(Spoiled(mishap)) == ("m", "x")
    ensures Opens([], [Spoiled(mishap), again], 0)
    ensures !(Reaches([], [Spoiled(mishap), again], 0) && Spoiled(mishap).env.insert.Stored?)
  {
    PlainCandidates("x", "p", "t1");
    PlainIsAdmitted("x", ["p"], "t1");
    assert Candidates(Spoiled(mishap)) == ["p"];
  }

  /** Whichever of them happens, an item sent again in the same batch is called a
      duplicate of a message that is nowhere. */
  lemma FalseDuplicate(mishap: Mishap)
    ensures var items := [Spoiled(mishap), Plain("x", [], "t2")];
            && StatusOf([], items, 1) == Duplicate
            && !Holds(After([], items, true, 2).rows, ("m", "x"))
  {
    hide Opens, Reaches, After, StatusOf, Spoiled;
    var again := Plain("x", [], "t2");
    var items := [Spoiled(mishap), again];
    SpoiledFails(mishap, again);
    SpoiledIsNamed(mishap);
    PlainIsAdmitted("x", [], "t2");
    DuplicateIsReal([], items, 0, 1, ("m", "x"));
  }

  lemma SpoiledIsNamed(mishap: Mishap)
    ensures Spoiled(mishap).messageId == "x" && Spoiled(mishap).env.newThread == "t1"
  {
  }

  /** A batch of new, distinct ids that meets no error is imported whole. */
  ghost predicate Smooth(rows: seq<Row>, items: seq<Item>) {
    && NamedThreads(items)
    && (forall i, j :: 0 <= i < j < |items| ==> items[i].messageId != items[j].messageId)
    && forall i :: 0 <= i < |items| ==>
         && Admitted(items[i]) && items[i].messageId != "" && !Holds(rows, Key(items[i]))
         && items[i].env.countOk && items[i].env.attachmentsOk && items[i].env.lookupOk && items[i].env.insert.Stored?
  }

  lemma LiveIsHeld(rows: seq<Row>, key: (string, string))
    ensures HoldsLive(rows, key) ==> Holds(rows, key)
  {
  }

  lemma SmoothStatus(rows: seq<Row>, items: seq<Item>, i: nat)
    requires Smooth(rows, items) && i < |items|
    ensures StatusOf(rows, items, i) == Imported
  {
    hide Holds, HoldsLive, StatusOf;
    var key := Key(items[i]);
    LiveIsHeld(rows, key);
    StatusByInput(rows, items, i);
    assert forall j :: 0 <= j < i ==> !Claims(items[j], key);
  }

  lemma {:induction false} SmoothIsImported(rows: seq<Row>, items: seq<Item>, n: nat)
    requires Smooth(rows, items) && n <= |items|
    ensures After(rows, items, true, n).result.imported == |After(rows, items, true, n).result.items| == n
  {
    hide ImportOne, Smooth;
    if n > 0 {
      SmoothIsImported(rows, items, n - 1);
      SmoothStatus(rows, items, n - 1);
      var t, status, emailId := ImportReports(After(rows, items, true, n - 1), n - 1, items[n - 1], true);
    }
  }
}
