/** The threads that reply headers chain the messages of a batch into. */
module ImportThreads {
  import opened Wrappers
  import opened ImportBatch
  import opened ImportReport

  // ---- what the threads are, without the loop's variables ----

  /** The item before `n` that carries the id, or `n`. */
  function Carrier(items: seq<Item>, id: string, n: nat): (j: nat)
    requires n <= |items|
    ensures j <= n
    ensures j < n ==> items[j].messageId == id
    ensures forall k :: 0 <= k < j ==> items[k].messageId != id
  {
    if n == 0 then 0
    else
      var j := Carrier(items, id, n - 1);
      if j < n - 1 || items[n - 1].messageId == id then j else n
  }

  /** The earlier item that the first candidate found among them names, or `n`. */
  function Parent(items: seq<Item>, candidates: seq<string>, n: nat): (j: nat)
    requires n <= |items|
    ensures j <= n
  {
    if candidates == [] then n
    else
      var j := Carrier(items, candidates[0], n);
      if j < n then j else Parent(items, candidates[1..], n)
  }

  predicate Cites(item: Item, id: string) {
    id in Candidates(item)
  }

  /** The first item before `n` whose reply headers name the id, or `n`. */
  function FirstCiter(items: seq<Item>, id: string, n: nat): (j: nat)
    requires n <= |items|
    ensures j <= n
    ensures j < n ==> Cites(items[j], id)
    ensures forall k :: 0 <= k < j ==> !Cites(items[k], id)
  {
    if n == 0 then 0
    else
      var j := FirstCiter(items, id, n - 1);
      if j < n - 1 || Cites(items[n - 1], id) then j else n
  }

  /** The thread of item `i`: its first known parent's, else the one the table
      gives a candidate, else that of the first item that named it, else new. */
  ghost function ThreadOf(rows: seq<Row>, items: seq<Item>, i: nat): string
    requires i < |items|
  {
    var parent := Parent(items, Candidates(items[i]), i);
    var stored := StoredThread(rows, Account(items[i]), Candidates(items[i]));
    var citer := if items[i].messageId == "" then i else FirstCiter(items, items[i].messageId, i);
    if parent < i then ThreadOf(rows, items, parent)
    else if stored != "" then stored
    else if citer < i then ThreadOf(rows, items, citer)
    else items[i].env.newThread
  }

  /** Distinct ids, and identifiers that are not blank. */
  ghost predicate WellNamed(rows: seq<Row>, items: seq<Item>) {
    && (forall i, j :: 0 <= i < j < |items| && items[j].messageId != "" ==> items[i].messageId != items[j].messageId)
    && (forall i :: 0 <= i < |items| ==> items[i].env.newThread != "")
    && (forall k :: 0 <= k < |rows| ==> rows[k].id != "")
  }

  ghost predicate AllImported(rows: seq<Row>, items: seq<Item>, dedupe: bool, n: nat)
    requires n <= |items|
  {
    After(rows, items, dedupe, n).result.imported == n
  }

  // ---- the loop computes them ----

  /** Rows that the reply-chain queries cannot tell apart. */
  ghost predicate SameLookups(a: seq<Row>, b: seq<Row>)
    requires |a| <= |b|
  {
    forall k :: 0 <= k < |a| ==>
      b[k].(thread := a[k].thread) == a[k] && ThreadOrOwn(b[k]) == ThreadOrOwn(a[k])
  }

  /** The row an item leaves, column by column. */
  predicate FiledAs(item: Item, row: Row, thread: string) {
    && item.env.mailbox.Some?
    && row == Row(item.env.mailbox.value.account, item.env.mailbox.value.id, item.messageId, thread,
                  item.env.newEmail, true)
  }

  ghost predicate FilesRows(rows: seq<Row>, items: seq<Item>, now: seq<Row>, n: nat)
    requires n <= |items|
  {
    && |now| == |rows| + n
    && SameLookups(rows, now)
    && forall k :: 0 <= k < n ==> FiledAs(items[k], now[|rows| + k], ThreadOf(rows, items, k))
  }

  ghost predicate KnowsThreads(rows: seq<Row>, items: seq<Item>, threads: map<string, string>, n: nat)
    requires n <= |items|
  {
    forall c :: c != "" ==>
      && (c in threads <==> Carrier(items, c, n) < n)
      && (c in threads ==> threads[c] == ThreadOf(rows, items, Carrier(items, c, n)))
  }

  ghost predicate AwaitsParents(rows: seq<Row>, items: seq<Item>, referenced: map<string, string>, n: nat)
    requires n <= |items|
  {
    forall c :: c != "" && Carrier(items, c, n) == n ==> AwaitsOne(rows, items, referenced, n, c)
  }

  ghost predicate AwaitsOne(rows: seq<Row>, items: seq<Item>, referenced: map<string, string>, n: nat, c: string)
    requires n <= |items|
  {
    && (c in referenced <==> FirstCiter(items, c, n) < n)
    && (c in referenced ==> referenced[c] == ThreadOf(rows, items, FirstCiter(items, c, n)))
  }

  ghost predicate Threaded(rows: seq<Row>, items: seq<Item>, s: Batch, n: nat)
    requires n <= |items|
  {
    && FilesRows(rows, items, s.rows, n)
    && KnowsThreads(rows, items, s.batchThreads, n)
    && AwaitsParents(rows, items, s.referenced, n)
  }

  lemma {:induction false} ThreadIsNamed(rows: seq<Row>, items: seq<Item>, i: nat)
    requires WellNamed(rows, items) && i < |items|
    ensures ThreadOf(rows, items, i) != ""
    decreases i
  {
    forall j | 0 <= j < i ensures ThreadOf(rows, items, j) != "" {
      ThreadIsNamed(rows, items, j);
    }
  }

  lemma {:induction false} ParentOrNone(items: seq<Item>, candidates: seq<string>, n: nat)
    requires n <= |items|
    ensures Parent(items, candidates, n) == n <==> forall c :: c in candidates ==> Carrier(items, c, n) == n
  {
    if candidates != [] {
      assert candidates[0] in candidates;
      assert forall c :: c in candidates ==> c == candidates[0] || c in candidates[1..];
      ParentOrNone(items, candidates[1..], n);
    }
  }

  lemma {:induction false} FirstKnownIsParent(rows: seq<Row>, items: seq<Item>, threads: map<string, string>,
      candidates: seq<string>, n: nat)
    requires n <= |items| && KnowsThreads(rows, items, threads, n) && "" !in candidates
    ensures var p := Parent(items, candidates, n);
            FirstKnown(candidates, threads) == if p < n then ThreadOf(rows, items, p) else ""
  {
    if candidates != [] {
      FirstKnownIsParent(rows, items, threads, candidates[1..], n);
    }
  }

  /** Rows whose id no candidate names leave the query's answer alone. */
  lemma OldestIgnoresOthers(rows: seq<Row>, now: seq<Row>, account: nat, id: string)
    requires |rows| <= |now| && SameLookups(rows, now)
    requires forall k :: |rows| <= k < |now| ==> now[k].messageId != id
    ensures Oldest(rows, account, id) == if Oldest(now, account, id) < |now| then Oldest(now, account, id) else |rows|
    ensures Oldest(now, account, id) < |now| ==> Oldest(now, account, id) < |rows|
  {
    var k, l := Oldest(rows, account, id), Oldest(now, account, id);
    assert forall j :: 0 <= j < |rows| ==> (Matches(rows[j], account, id) <==> Matches(now[j], account, id));
    if l < |now| {
      assert l < |rows| && Matches(rows[l], account, id);
    }
  }

  lemma {:induction false} LookupIgnoresOthers(rows: seq<Row>, now: seq<Row>, account: nat, candidates: seq<string>)
    requires |rows| <= |now| && SameLookups(rows, now)
    requires forall k, c :: |rows| <= k < |now| && c in candidates ==> now[k].messageId != c
    ensures StoredThread(now, account, candidates) == StoredThread(rows, account, candidates)
    ensures SameLookups(rows, Promoted(now, account, candidates))
    ensures Promoted(now, account, candidates)[|rows|..] == now[|rows|..]
  {
    if candidates != [] {
      assert candidates[0] in candidates;
      assert forall c :: c in candidates[1..] ==> c in candidates;
      OldestIgnoresOthers(rows, now, account, candidates[0]);
      LookupIgnoresOthers(rows, now, account, candidates[1..]);
    }
  }

  lemma {:induction false} AwaitAdds(referenced: map<string, string>, known: map<string, string>,
      candidates: seq<string>, thread: string, c: string)
    ensures var r := Await(referenced, known, candidates, thread);
            && (c in r <==> c in referenced || (c in candidates && c !in known))
            && (c in r ==> r[c] == if c in referenced then referenced[c] else thread)
    decreases |candidates|
  {
    if candidates != [] {
      var d := candidates[0];
      var next := if d in known || d in referenced then referenced else referenced[d := thread];
      AwaitAdds(next, known, candidates[1..], thread, c);
    }
  }

  /** The loop's three sources of a thread agree with the definition. */
  lemma ChoosesThread(rows: seq<Row>, items: seq<Item>, s: Batch, n: nat)
    requires n < |items| && WellNamed(rows, items) && Threaded(rows, items, s, n) && Admitted(items[n])
    ensures ChosenThread(s, items[n]) == ThreadOf(rows, items, n)
    ensures FirstKnown(Candidates(items[n]), s.batchThreads) != "" <==> Parent(items, Candidates(items[n]), n) < n
    ensures Parent(items, Candidates(items[n]), n) == n ==>
              forall k, c :: |rows| <= k < |s.rows| && c in Candidates(items[n]) ==> s.rows[k].messageId != c
  {
    var item := items[n];
    var candidates := Candidates(item);
    CandidatesArePresent(item);
    FirstKnownIsParent(rows, items, s.batchThreads, candidates, n);
    var p := Parent(items, candidates, n);
    if p < n {
      ThreadIsNamed(rows, items, p);
    } else {
      ParentOrNone(items, candidates, n);
      forall k, c | |rows| <= k < |s.rows| && c in candidates ensures s.rows[k].messageId != c {
        assert FiledAs(items[k - |rows|], s.rows[|rows| + (k - |rows|)], ThreadOf(rows, items, k - |rows|));
        assert Carrier(items, c, n) == n;
      }
      LookupIgnoresOthers(rows, s.rows, Account(item), candidates);
      if item.messageId != "" {
        assert Carrier(items, item.messageId, n) == n;
        if item.messageId in s.referenced {
          ThreadIsNamed(rows, items, FirstCiter(items, item.messageId, n));
        }
      }
    }
  }

  /** What the loop's variables are after an item that was imported. */
  ghost predicate Advanced(s: Batch, item: Item, t: Batch)
    requires item.env.mailbox.Some?
  {
    var candidates, thread := Candidates(item), ChosenThread(s, item);
    var known := FirstKnown(candidates, s.batchThreads) != "";
    && t.rows == (if known then s.rows else Promoted(s.rows, Account(item), candidates)) + [NewRow(item, thread)]
    && t.referenced == Await(s.referenced, s.batchThreads, candidates, thread)
    && t.batchThreads == if item.messageId == "" then s.batchThreads else s.batchThreads[item.messageId := thread]
  }

  lemma ImportedAdvances(s: Batch, index: nat, item: Item, dedupe: bool)
    ensures var t := ImportOne(s, index, item, dedupe);
            && t.result.imported <= s.result.imported + 1
            && (t.result.imported > s.result.imported ==> Admitted(item) && Advanced(s, item, t))
  {
    hide ChosenThread, Promoted, Await, FirstKnown, HoldsLive, Holds;
    if item.env.mailbox.Some? {
      var t := s.(seen := s.seen + {Key(item)});
      SeenIsIrrelevant(s, t.seen, item);
    }
  }

  lemma StepKnows(rows: seq<Row>, items: seq<Item>, s: Batch, n: nat, t: Batch)
    requires n < |items| && WellNamed(rows, items) && Threaded(rows, items, s, n)
    requires Admitted(items[n]) && Advanced(s, items[n], t)
    ensures KnowsThreads(rows, items, t.batchThreads, n + 1)
  {
    ChoosesThread(rows, items, s, n);
    hide ThreadOf, ChosenThread, FilesRows, AwaitsParents;
  }

  lemma AwaitsOneMore(rows: seq<Row>, items: seq<Item>, before: map<string, string>, after: map<string, string>,
      n: nat, c: string)
    requires n < |items| && AwaitsOne(rows, items, before, n, c)
    requires c in after <==> c in before || c in Candidates(items[n])
    requires c in after ==> after[c] == if c in before then before[c] else ThreadOf(rows, items, n)
    ensures AwaitsOne(rows, items, after, n + 1, c)
  {
    hide ThreadOf, Candidates;
  }

  lemma StepAwaits(rows: seq<Row>, items: seq<Item>, s: Batch, n: nat, t: Batch)
    requires n < |items| && WellNamed(rows, items) && Threaded(rows, items, s, n)
    requires Admitted(items[n]) && Advanced(s, items[n], t)
    ensures AwaitsParents(rows, items, t.referenced, n + 1)
  {
    ChoosesThread(rows, items, s, n);
    hide ThreadOf, ChosenThread, FilesRows, Await, Candidates, WellNamed, Promoted, AwaitsOne, FirstCiter;
    var next := n + 1;
    forall c | c != "" && Carrier(items, c, next) == next
      ensures AwaitsOne(rows, items, t.referenced, next, c)
    {
      AwaitAdds(s.referenced, s.batchThreads, Candidates(items[n]), ChosenThread(s, items[n]), c);
      AwaitsOneMore(rows, items, s.referenced, t.referenced, n, c);
    }
  }

  lemma BaseKeeps(rows: seq<Row>, items: seq<Item>, s: Batch, n: nat)
    requires n < |items| && WellNamed(rows, items) && Threaded(rows, items, s, n) && Admitted(items[n])
    ensures |Base(s, items[n])| == |s.rows| && SameLookups(rows, Base(s, items[n]))
    ensures Base(s, items[n])[|rows|..] == s.rows[|rows|..]
  {
    ChoosesThread(rows, items, s, n);
    hide ThreadOf, ChosenThread, KnowsThreads, AwaitsParents, Candidates, WellNamed, StoredThread, Promoted;
    if FirstKnown(Candidates(items[n]), s.batchThreads) == "" {
      LookupIgnoresOthers(rows, s.rows, Account(items[n]), Candidates(items[n]));
    }
  }

  lemma AppendFiles(rows: seq<Row>, items: seq<Item>, before: seq<Row>, base: seq<Row>, n: nat, row: Row)
    requires n < |items| && FilesRows(rows, items, before, n)
    requires |base| == |before| && SameLookups(rows, base) && base[|rows|..] == before[|rows|..]
    requires FiledAs(items[n], row, ThreadOf(rows, items, n))
    ensures FilesRows(rows, items, base + [row], n + 1)
  {
    hide ThreadOf;
    forall k | |rows| <= k < |base|
      ensures base[k] == before[k]
    {
      assert base[|rows|..][k - |rows|] == before[|rows|..][k - |rows|];
    }
  }

  lemma StepFiles(rows: seq<Row>, items: seq<Item>, s: Batch, n: nat, t: Batch)
    requires n < |items| && WellNamed(rows, items) && Threaded(rows, items, s, n)
    requires Admitted(items[n]) && Advanced(s, items[n], t)
    ensures FilesRows(rows, items, t.rows, n + 1)
  {
    ChoosesThread(rows, items, s, n);
    BaseKeeps(rows, items, s, n);
    hide ThreadOf, ChosenThread, KnowsThreads, AwaitsParents, Candidates, WellNamed, StoredThread, Promoted;
    hide FirstKnown, Await, Parent, SameLookups, FilesRows;
    AppendFiles(rows, items, s.rows, Base(s, items[n]), n, NewRow(items[n], ChosenThread(s, items[n])));
  }

  lemma {:induction false} ImportedAtMost(rows: seq<Row>, items: seq<Item>, dedupe: bool, n: nat)
    requires n <= |items|
    ensures After(rows, items, dedupe, n).result.imported <= n
  {
    hide ImportOne, Advanced, Admitted;
    if n > 0 {
      ImportedAtMost(rows, items, dedupe, n - 1);
      ImportedAdvances(After(rows, items, dedupe, n - 1), n - 1, items[n - 1], dedupe);
    }
  }

  /** When every item was imported, the loop filed each under its thread. */
  lemma {:induction false} LoopThreads(rows: seq<Row>, items: seq<Item>, dedupe: bool, n: nat)
    requires n <= |items| && WellNamed(rows, items) && AllImported(rows, items, dedupe, n)
    ensures Threaded(rows, items, After(rows, items, dedupe, n), n)
  {
    hide WellNamed, Threaded, Advanced, ImportOne;
    if n > 0 {
      var s := After(rows, items, dedupe, n - 1);
      var t := After(rows, items, dedupe, n);
      ImportedAtMost(rows, items, dedupe, n - 1);
      ImportedAdvances(s, n - 1, items[n - 1], dedupe);
      LoopThreads(rows, items, dedupe, n - 1);
      StepThreads(rows, items, s, n - 1, t);
    } else {
      StartIsThreaded(rows, items);
    }
  }

  lemma StartIsThreaded(rows: seq<Row>, items: seq<Item>)
    ensures Threaded(rows, items, Start(rows), 0)
  {
  }

  lemma StepThreads(rows: seq<Row>, items: seq<Item>, s: Batch, n: nat, t: Batch)
    requires n < |items| && WellNamed(rows, items) && Threaded(rows, items, s, n)
    requires Admitted(items[n]) && Advanced(s, items[n], t)
    ensures Threaded(rows, items, t, n + 1)
  {
    StepFiles(rows, items, s, n, t);
    StepKnows(rows, items, s, n, t);
    StepAwaits(rows, items, s, n, t);
  }

  /** The thread of item `i` in a table that a whole batch was imported into. */
  function FiledThread(rows: seq<Row>, items: seq<Item>, dedupe: bool, i: nat): string
    requires i < |items|
  {
    var now := After(rows, items, dedupe, |items|).rows;
    if |rows| + i < |now| then now[|rows| + i].thread else ""
  }

  /** Whatever the order of the batch, each message is filed under `ThreadOf`, in a
      live row of its own mailbox and account; the rows before it keep all but a
      missing thread. */
  lemma ThreadsAreDefined(rows: seq<Row>, items: seq<Item>, dedupe: bool, i: nat)
    requires WellNamed(rows, items) && AllImported(rows, items, dedupe, |items|) && i < |items|
    ensures var now := After(rows, items, dedupe, |items|).rows;
            && |now| == |rows| + |items| && SameLookups(rows, now)
            && FiledAs(items[i], now[|rows| + i], ThreadOf(rows, items, i))
    ensures FiledThread(rows, items, dedupe, i) == ThreadOf(rows, items, i)
  {
    LoopThreads(rows, items, dedupe, |items|);
    hide ThreadOf, After, KnowsThreads, AwaitsParents;
  }

  // ---- threads as a partition of the batch ----

  /** No candidate of any item names a message the account already holds. */
  ghost predicate NothingStored(rows: seq<Row>, items: seq<Item>) {
    forall i, c, k :: 0 <= i < |items| && c in Candidates(items[i]) && 0 <= k < |rows| ==>
      !Matches(rows[k], Account(items[i]), c)
  }

  ghost predicate FreshThreads(items: seq<Item>) {
    forall i, j :: 0 <= i < j < |items| ==> items[i].env.newThread != items[j].env.newThread
  }

  /** The item whose new thread `i` ends in: its parent's if a candidate arrived
      before it, else that of the first item that asked for it, else itself. */
  function Anchor(items: seq<Item>, i: nat): (a: nat)
    requires i < |items|
    ensures a <= i
  {
    var parent := Parent(items, Candidates(items[i]), i);
    var citer := if items[i].messageId == "" then i else FirstCiter(items, items[i].messageId, i);
    if parent < i then Anchor(items, parent) else if citer < i then Anchor(items, citer) else i
  }

  lemma {:induction false} NothingFound(rows: seq<Row>, account: nat, candidates: seq<string>)
    requires forall c, k :: c in candidates && 0 <= k < |rows| ==> !Matches(rows[k], account, c)
    ensures StoredThread(rows, account, candidates) == ""
  {
    if candidates != [] {
      assert candidates[0] in candidates && forall c :: c in candidates[1..] ==> c in candidates;
      assert Oldest(rows, account, candidates[0]) == |rows|;
      NothingFound(rows, account, candidates[1..]);
    }
  }

  lemma {:induction false} ThreadIsAnchors(rows: seq<Row>, items: seq<Item>, i: nat)
    requires NothingStored(rows, items) && i < |items|
    ensures ThreadOf(rows, items, i) == items[Anchor(items, i)].env.newThread
    decreases i
  {
    NothingFound(rows, Account(items[i]), Candidates(items[i]));
    forall j | 0 <= j < i
      ensures ThreadOf(rows, items, j) == items[Anchor(items, j)].env.newThread
    {
      ThreadIsAnchors(rows, items, j);
    }
  }

  /** For a batch in any order that names no stored message, two messages share
      a thread exactly when they have the same anchor. */
  lemma SharedThread(rows: seq<Row>, items: seq<Item>, dedupe: bool, i: nat, j: nat)
    requires WellNamed(rows, items) && NothingStored(rows, items) && FreshThreads(items)
    requires AllImported(rows, items, dedupe, |items|) && i < |items| && j < |items|
    ensures FiledThread(rows, items, dedupe, i) == FiledThread(rows, items, dedupe, j) <==>
            Anchor(items, i) == Anchor(items, j)
  {
    ThreadsAreDefined(rows, items, dedupe, i);
    ThreadsAreDefined(rows, items, dedupe, j);
    ThreadIsAnchors(rows, items, i);
    ThreadIsAnchors(rows, items, j);
  }

  // ---- parents before children ----

  /** Every id of the batch is cited only after the message that carries it. */
  ghost predicate OldestFirst(items: seq<Item>) {
    forall i, j :: 0 <= i <= j < |items| && items[j].messageId != "" ==> items[j].messageId !in Candidates(items[i])
  }

  /** Follow the first candidate that is in the batch until there is none. */
  function Root(items: seq<Item>, i: nat): (r: nat)
    requires i < |items|
    ensures r <= i
  {
    var parent := Parent(items, Candidates(items[i]), |items|);
    if parent < i then Root(items, parent) else i
  }

  lemma {:induction false} CarrierIsEarlier(items: seq<Item>, c: string, i: nat, n: nat)
    requires i <= n <= |items|
    requires forall j :: i <= j < n ==> items[j].messageId != c
    ensures Carrier(items, c, n) == if Carrier(items, c, i) < i then Carrier(items, c, i) else n
    decreases n
  {
    if i < n {
      CarrierIsEarlier(items, c, i, n - 1);
    }
  }

  lemma {:induction false} ParentIsEarlier(items: seq<Item>, candidates: seq<string>, i: nat)
    requires i <= |items|
    requires forall c, j :: c in candidates && i <= j < |items| ==> items[j].messageId != c
    ensures var p := Parent(items, candidates, i);
            Parent(items, candidates, |items|) == if p < i then p else |items|
  {
    if candidates != [] {
      assert candidates[0] in candidates && forall c :: c in candidates[1..] ==> c in candidates;
      CarrierIsEarlier(items, candidates[0], i, |items|);
      ParentIsEarlier(items, candidates[1..], i);
    }
  }

  lemma {:induction false} AnchorIsRoot(items: seq<Item>, i: nat)
    requires OldestFirst(items) && i < |items|
    ensures Anchor(items, i) == Root(items, i)
    decreases i
  {
    var candidates := Candidates(items[i]);
    CandidatesArePresent(items[i]);
    assert forall c, j :: c in candidates && i <= j < |items| ==> items[j].messageId != c;
    ParentIsEarlier(items, candidates, i);
    var p := Parent(items, candidates, i);
    if p < i {
      AnchorIsRoot(items, p);
    } else if items[i].messageId != "" {
      assert FirstCiter(items, items[i].messageId, i) == i;
    }
  }

  lemma {:induction false} RootIsRoot(items: seq<Item>, i: nat)
    requires i < |items|
    ensures Root(items, Root(items, i)) == Root(items, i)
    decreases i
  {
    var parent := Parent(items, Candidates(items[i]), |items|);
    if parent < i {
      RootIsRoot(items, parent);
    }
  }

  /** Threads are exactly the trees of the reply forest. */
  lemma ReplyForest(rows: seq<Row>, items: seq<Item>, dedupe: bool, i: nat, j: nat)
    requires WellNamed(rows, items) && NothingStored(rows, items) && FreshThreads(items) && OldestFirst(items)
    requires AllImported(rows, items, dedupe, |items|) && i < |items| && j < |items|
    ensures FiledThread(rows, items, dedupe, i) == FiledThread(rows, items, dedupe, j) <==>
            Root(items, i) == Root(items, j)
    ensures FiledThread(rows, items, dedupe, i) == items[Root(items, i)].env.newThread
  {
    SharedThread(rows, items, dedupe, i, j);
    AnchorIsRoot(items, i);
    AnchorIsRoot(items, j);
    ThreadsAreDefined(rows, items, dedupe, i);
    ThreadIsAnchors(rows, items, i);
  }

  // ---- children before parents ----

  /** The item whose thread a late parent joins: the first candidate that came
      before it, or else the first child that named it. */
  function Joined(items: seq<Item>, parent: nat): (q: nat)
    requires parent < |items|
    ensures q <= parent
  {
    var q := Parent(items, Candidates(items[parent]), parent);
    if q < parent then q else FirstCiter(items, items[parent].messageId, parent)
  }

  /** A child that arrives before its parent shares its thread exactly when it
      has the anchor of the item the parent joins, although the loop's comments
      promise it to every child. */
  lemma LateParent(rows: seq<Row>, items: seq<Item>, dedupe: bool, child: nat, parent: nat)
    requires WellNamed(rows, items) && NothingStored(rows, items) && FreshThreads(items)
    requires AllImported(rows, items, dedupe, |items|) && child < parent < |items|
    requires items[parent].messageId != "" && items[parent].messageId in Candidates(items[child])
    ensures Joined(items, parent) < parent
    ensures FiledThread(rows, items, dedupe, parent) == FiledThread(rows, items, dedupe, Joined(items, parent))
    ensures FiledThread(rows, items, dedupe, child) == FiledThread(rows, items, dedupe, parent) <==>
              Anchor(items, child) == Anchor(items, Joined(items, parent))
  {
    var q := Joined(items, parent);
    assert FirstCiter(items, items[parent].messageId, parent) <= child;
    SharedThread(rows, items, dedupe, parent, q);
    SharedThread(rows, items, dedupe, child, parent);
  }

  /** Three messages to one mailbox, each with the ids it answers. */
  function Three(id0: string, cites0: seq<string>, id1: string, cites1: seq<string>, id2: string,
      cites2: seq<string>): seq<Item>
  {
    [Plain(id0, cites0, "t1"), Plain(id1, cites1, "t2"), Plain(id2, cites2, "t3")]
  }

  lemma NothingHeld()
    ensures forall key :: !Holds([], key)
  {
  }

  lemma ThreeAreImported(id0: string, cites0: seq<string>, id1: string, cites1: seq<string>, id2: string,
      cites2: seq<string>)
    requires id0 != "" && id1 != "" && id2 != "" && id0 != id1 && id1 != id2 && id0 != id2
    ensures var items := Three(id0, cites0, id1, cites1, id2, cites2);
            && WellNamed([], items) && NothingStored([], items) && FreshThreads(items)
            && AllImported([], items, true, 3)
  {
    hide Candidates, After, Holds, Admitted;
    NothingHeld();
    PlainIsAdmitted(id0, cites0, "t1");
    PlainIsAdmitted(id1, cites1, "t2");
    PlainIsAdmitted(id2, cites2, "t3");
    SmoothIsImported([], Three(id0, cites0, id1, cites1, id2, cites2), 3);
  }

  /** Two replies before the message they answer: the second is left out of the
      conversation. */
  lemma EarlyRepliesSplit()
    ensures var items := Three("r1", ["p"], "r2", ["p"], "p", []);
            && FiledThread([], items, true, 0) == FiledThread([], items, true, 2)
            && FiledThread([], items, true, 1) != FiledThread([], items, true, 2)
  {
    hide Candidates, FiledThread, AllImported, WellNamed, NothingStored, FreshThreads;
    var items := Three("r1", ["p"], "r2", ["p"], "p", []);
    ThreeAreImported("r1", ["p"], "r2", ["p"], "p", []);
    PlainCandidates("r1", "p", "t1");
    PlainCandidates("r2", "p", "t2");
    PlainCandidates("p", "p", "t3");
    assert FirstCiter(items, "p", 1) == 0;
    assert Joined(items, 2) == 0;
    assert Anchor(items, 0) == 0 && Anchor(items, 1) == 1;
    LateParent([], items, true, 0, 2);
    LateParent([], items, true, 1, 2);
  }

  /** A reply before the message it answers, which itself answers one that came
      in between: even the first and only child is split from its parent. */
  lemma OnlyReplySplits()
    ensures var items := Three("r1", ["p"], "g", [], "p", ["g"]);
            FiledThread([], items, true, 0) != FiledThread([], items, true, 2)
  {
    hide Candidates, FiledThread, AllImported, WellNamed, NothingStored, FreshThreads;
    var items := Three("r1", ["p"], "g", [], "p", ["g"]);
    ThreeAreImported("r1", ["p"], "g", [], "p", ["g"]);
    PlainCandidates("r1", "p", "t1");
    PlainCandidates("g", "g", "t2");
    PlainCandidates("p", "g", "t3");
    assert Carrier(items, "g", 1) == 1 && Carrier(items, "g", 2) == 1;
    assert Joined(items, 2) == 1;
    assert Anchor(items, 0) == 0 && Anchor(items, 1) == 1;
    LateParent([], items, true, 0, 2);
  }
}
