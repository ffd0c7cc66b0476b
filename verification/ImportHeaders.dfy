/** Which reply header decides the thread of an imported message, stated on the
    headers themselves: In-Reply-To in order before References from the newest,
    the batch before the account's table, both before a child that came first. */
module ImportHeaders {
  import opened ImportBatch
  import opened ImportThreads
  import opened Text
  import opened Wrappers

  // ---- where an id stands among the candidates ----

  lemma {:induction false} PresentAppends(a: seq<string>, b: seq<string>)
    ensures Present(a + b) == Present(a) + Present(b)
  {
    if a == [] {
      assert a + b == b;
    } else {
      assert (a + b)[0] == a[0] && (a + b)[1..] == a[1..] + b;
      PresentAppends(a[1..], b);
    }
  }

  lemma {:induction false} PresentBackwardsAppends(a: seq<string>, b: seq<string>)
    ensures PresentBackwards(a + b) == PresentBackwards(b) + PresentBackwards(a)
    decreases |b|
  {
    if b == [] {
      assert a + b == a;
    } else {
      var n := |b| - 1;
      assert (a + b)[|a + b| - 1] == b[n] && (a + b)[..|a + b| - 1] == a + b[..n];
      PresentBackwardsAppends(a, b[..n]);
    }
  }

  lemma PresentOne(id: string)
    requires id != ""
    ensures Present([id]) == [id] && PresentBackwards([id]) == [id]
  {
    assert [id][1..] == [] && [id][..0] == [];
  }

  lemma PresentSplits(ids: seq<string>, j: nat)
    requires j < |ids| && ids[j] != ""
    ensures Present(ids) == Present(ids[..j]) + [ids[j]] + Present(ids[j + 1..])
  {
    hide Present, PresentBackwards;
    PresentOne(ids[j]);
    PresentAppends(ids[..j], [ids[j]]);
    PresentAppends(ids[..j] + [ids[j]], ids[j + 1..]);
    assert ids == ids[..j] + [ids[j]] + ids[j + 1..];
  }

  lemma PresentBackwardsSplits(ids: seq<string>, j: nat)
    requires j < |ids| && ids[j] != ""
    ensures PresentBackwards(ids) == PresentBackwards(ids[j + 1..]) + [ids[j]] + PresentBackwards(ids[..j])
  {
    hide Present, PresentBackwards;
    PresentOne(ids[j]);
    PresentBackwardsAppends(ids[..j], [ids[j]]);
    PresentBackwardsAppends(ids[..j] + [ids[j]], ids[j + 1..]);
    assert ids == ids[..j] + [ids[j]] + ids[j + 1..];
  }

  lemma {:induction false} PresentHas(ids: seq<string>, id: string)
    ensures id in Present(ids) <==> id != "" && id in ids
  {
    if ids != [] {
      PresentHas(ids[1..], id);
      assert id in ids <==> id == ids[0] || id in ids[1..];
    }
  }

  lemma {:induction false} PresentBackwardsHas(ids: seq<string>, id: string)
    ensures id in PresentBackwards(ids) <==> id != "" && id in ids
    decreases |ids|
  {
    if ids != [] {
      var n := |ids| - 1;
      PresentBackwardsHas(ids[..n], id);
      assert ids == ids[..n] + [ids[n]];
      assert id in ids <==> id == ids[n] || id in ids[..n];
    }
  }

  /** The message's reply headers name the id. */
  predicate Names(item: Item, id: string) {
    id != "" && (id in item.inReplyTo || id in item.references)
  }

  lemma CitesAreNames(item: Item, id: string)
    ensures id in Candidates(item) <==> Names(item, id)
  {
    PresentHas(item.inReplyTo, id);
    PresentBackwardsHas(item.references, id);
  }

  /** `x` is a candidate, and only ids of `before` are tried ahead of it. */
  ghost predicate Tried(item: Item, x: string, before: set<string>) {
    exists a: seq<string>, b: seq<string> ::
      Candidates(item) == a + [x] + b && forall c :: c in a ==> c in before
  }

  ghost function Ahead(ids: seq<string>): set<string> {
    set id | id in ids && id != ""
  }

  lemma ReplyIsTried(item: Item, j: nat)
    requires j < |item.inReplyTo| && item.inReplyTo[j] != ""
    ensures Tried(item, item.inReplyTo[j], Ahead(item.inReplyTo[..j]))
  {
    var ids := item.inReplyTo;
    PresentSplits(ids, j);
    var a, b := Present(ids[..j]), Present(ids[j + 1..]) + PresentBackwards(item.references);
    assert Candidates(item) == a + [ids[j]] + b;
    forall c | c in a ensures c in Ahead(ids[..j]) {
      PresentHas(ids[..j], c);
    }
  }

  lemma ReferenceIsTried(item: Item, j: nat)
    requires j < |item.references| && item.references[j] != ""
    ensures Tried(item, item.references[j], Ahead(item.inReplyTo) + Ahead(item.references[j + 1..]))
  {
    var ids := item.references;
    PresentBackwardsSplits(ids, j);
    var a, b := Present(item.inReplyTo) + PresentBackwards(ids[j + 1..]), PresentBackwards(ids[..j]);
    assert Candidates(item) == a + [ids[j]] + b;
    forall c | c in a ensures c in Ahead(item.inReplyTo) + Ahead(ids[j + 1..]) {
      PresentHas(item.inReplyTo, c);
      PresentBackwardsHas(ids[j + 1..], c);
    }
  }

  // ---- what the first hit decides ----

  lemma {:induction false} ParentAt(items: seq<Item>, a: seq<string>, x: string, b: seq<string>, n: nat)
    requires n <= |items| && Carrier(items, x, n) < n && forall c :: c in a ==> Carrier(items, c, n) == n
    ensures Parent(items, a + [x] + b, n) == Carrier(items, x, n)
  {
    if a == [] {
      assert (a + [x] + b)[0] == x;
    } else {
      assert (a + [x] + b)[0] == a[0] && (a + [x] + b)[1..] == a[1..] + [x] + b;
      assert a[0] in a;
      ParentAt(items, a[1..], x, b, n);
    }
  }

  lemma {:induction false} StoredAt(rows: seq<Row>, account: nat, a: seq<string>, x: string, b: seq<string>)
    requires Oldest(rows, account, x) < |rows| && forall c :: c in a ==> Oldest(rows, account, c) == |rows|
    ensures StoredThread(rows, account, a + [x] + b) == ThreadOrOwn(rows[Oldest(rows, account, x)])
  {
    if a == [] {
      assert (a + [x] + b)[0] == x;
    } else {
      assert (a + [x] + b)[0] == a[0] && (a + [x] + b)[1..] == a[1..] + [x] + b;
      assert a[0] in a;
      StoredAt(rows, account, a[1..], x, b);
    }
  }

  lemma {:induction false} NothingStoredFor(rows: seq<Row>, account: nat, candidates: seq<string>)
    requires forall c :: c in candidates ==> Oldest(rows, account, c) == |rows|
    ensures StoredThread(rows, account, candidates) == ""
  {
    if candidates != [] {
      assert candidates[0] in candidates && forall c :: c in candidates[1..] ==> c in candidates;
      NothingStoredFor(rows, account, candidates[1..]);
    }
  }

  /** An item before `i` carries the id. */
  ghost predicate Earlier(items: seq<Item>, id: string, i: nat)
    requires i <= |items|
  {
    exists k :: 0 <= k < i && items[k].messageId == id
  }

  /** A live row of the account carries the id. */
  ghost predicate Held(rows: seq<Row>, account: nat, id: string) {
    exists k :: 0 <= k < |rows| && rows[k].live && rows[k].account == account && rows[k].messageId == id
  }

  lemma EarlierIsCarried(items: seq<Item>, id: string, i: nat)
    requires i <= |items|
    ensures Earlier(items, id, i) <==> Carrier(items, id, i) < i
  {
  }

  lemma HeldIsOldest(rows: seq<Row>, account: nat, id: string)
    ensures Held(rows, account, id) <==> Oldest(rows, account, id) < |rows|
  {
    assert forall k :: 0 <= k < |rows| ==>
        (Matches(rows[k], account, id) <==> rows[k].live && rows[k].account == account && rows[k].messageId == id);
  }

  /** A batch that was imported whole. */
  ghost predicate Whole(rows: seq<Row>, items: seq<Item>, dedupe: bool) {
    WellNamed(rows, items) && AllImported(rows, items, dedupe, |items|)
  }

  lemma JoinsCarrier(rows: seq<Row>, items: seq<Item>, dedupe: bool, i: nat, x: string, before: set<string>, k: nat)
    requires Whole(rows, items, dedupe) && k < i < |items| && x != ""
    requires Tried(items[i], x, before) && items[k].messageId == x
    requires forall id :: id in before ==> !Earlier(items, id, i)
    ensures FiledThread(rows, items, dedupe, i) == FiledThread(rows, items, dedupe, k)
  {
    hide WellNamed, AllImported, FiledThread, Candidates;
    var a, b :| Candidates(items[i]) == a + [x] + b && forall c :: c in a ==> c in before;
    forall c | c in a ensures Carrier(items, c, i) == i {
      EarlierIsCarried(items, c, i);
    }
    EarlierIsCarried(items, x, i);
    ParentAt(items, a, x, b, i);
    OnlyCarrier(rows, items, Carrier(items, x, i), k, x);
    ThreadsAreDefined(rows, items, dedupe, i);
    ThreadsAreDefined(rows, items, dedupe, k);
  }

  lemma OnlyCarrier(rows: seq<Row>, items: seq<Item>, j: nat, k: nat, id: string)
    requires WellNamed(rows, items) && j < |items| && k < |items| && id != ""
    requires items[j].messageId == id && items[k].messageId == id
    ensures j == k
  {
  }

  /** The first In-Reply-To id that an earlier item carries decides. */
  lemma ReplyDecides(rows: seq<Row>, items: seq<Item>, dedupe: bool, i: nat, j: nat, k: nat)
    requires Whole(rows, items, dedupe) && k < i < |items| && j < |items[i].inReplyTo|
    requires items[k].messageId == items[i].inReplyTo[j] != ""
    requires forall l :: 0 <= l < j && items[i].inReplyTo[l] != "" ==> !Earlier(items, items[i].inReplyTo[l], i)
    ensures FiledThread(rows, items, dedupe, i) == FiledThread(rows, items, dedupe, k)
  {
    hide Whole, FiledThread, Tried;
    ReplyIsTried(items[i], j);
    JoinsCarrier(rows, items, dedupe, i, items[i].inReplyTo[j], Ahead(items[i].inReplyTo[..j]), k);
  }

  /** If no In-Reply-To id is carried earlier, the last reference that is decides. */
  lemma NewestReferenceDecides(rows: seq<Row>, items: seq<Item>, dedupe: bool, i: nat, j: nat, k: nat)
    requires Whole(rows, items, dedupe) && k < i < |items| && j < |items[i].references|
    requires items[k].messageId == items[i].references[j] != ""
    requires forall id :: id in items[i].inReplyTo && id != "" ==> !Earlier(items, id, i)
    requires forall l :: j < l < |items[i].references| && items[i].references[l] != "" ==>
               !Earlier(items, items[i].references[l], i)
    ensures FiledThread(rows, items, dedupe, i) == FiledThread(rows, items, dedupe, k)
  {
    hide Whole, FiledThread, Tried;
    ReferenceIsTried(items[i], j);
    JoinsCarrier(rows, items, dedupe, i, items[i].references[j],
                 Ahead(items[i].inReplyTo) + Ahead(items[i].references[j + 1..]), k);
  }

  // ---- messages that answer nothing of the batch before them ----

  ghost predicate NoneEarlier(items: seq<Item>, i: nat)
    requires i < |items|
  {
    forall id :: Names(items[i], id) ==> !Earlier(items, id, i)
  }

  ghost predicate NoneHeld(rows: seq<Row>, item: Item) {
    forall id :: Names(item, id) ==> !Held(rows, Account(item), id)
  }

  lemma NoParent(items: seq<Item>, i: nat)
    requires i < |items| && NoneEarlier(items, i)
    ensures Parent(items, Candidates(items[i]), i) == i
  {
    hide Candidates;
    forall c | c in Candidates(items[i]) ensures Carrier(items, c, i) == i {
      CitesAreNames(items[i], c);
      EarlierIsCarried(items, c, i);
    }
    ParentOrNone(items, Candidates(items[i]), i);
  }

  lemma NoStored(rows: seq<Row>, item: Item)
    requires NoneHeld(rows, item)
    ensures StoredThread(rows, Account(item), Candidates(item)) == ""
  {
    hide Candidates;
    forall c | c in Candidates(item) ensures Oldest(rows, Account(item), c) == |rows| {
      CitesAreNames(item, c);
      HeldIsOldest(rows, Account(item), c);
    }
    NothingStoredFor(rows, Account(item), Candidates(item));
  }

  /** Row `k` is the oldest live one of the account with the id. */
  ghost predicate OldestHeld(rows: seq<Row>, account: nat, id: string, k: nat) {
    && k < |rows| && rows[k].live && rows[k].account == account && rows[k].messageId == id
    && forall l :: 0 <= l < k ==> !(rows[l].live && rows[l].account == account && rows[l].messageId == id)
  }

  lemma JoinsStored(rows: seq<Row>, items: seq<Item>, dedupe: bool, i: nat, x: string, before: set<string>, k: nat)
    requires Whole(rows, items, dedupe) && i < |items| && NoneEarlier(items, i)
    requires Tried(items[i], x, before) && OldestHeld(rows, Account(items[i]), x, k)
    requires forall id :: id in before ==> !Held(rows, Account(items[i]), id)
    ensures FiledThread(rows, items, dedupe, i) ==
            if Text.Trim(rows[k].thread) != "" then rows[k].thread else rows[k].id
  {
    hide AllImported, FiledThread, Candidates, NoneEarlier, Held;
    var account := Account(items[i]);
    NoParent(items, i);
    var a, b :| Candidates(items[i]) == a + [x] + b && forall c :: c in a ==> c in before;
    forall c | c in a ensures Oldest(rows, account, c) == |rows| {
      HeldIsOldest(rows, account, c);
    }
    assert Oldest(rows, account, x) == k;
    StoredAt(rows, account, a, x, b);
    assert Text.Trim("") == "";
    ThreadsAreDefined(rows, items, dedupe, i);
  }

  /** Otherwise the first In-Reply-To id that the account's table holds decides:
      the thread of the oldest such message, or that message itself. */
  lemma StoredReplyDecides(rows: seq<Row>, items: seq<Item>, dedupe: bool, i: nat, j: nat, k: nat)
    requires Whole(rows, items, dedupe) && i < |items| && NoneEarlier(items, i)
    requires j < |items[i].inReplyTo| && items[i].inReplyTo[j] != ""
    requires OldestHeld(rows, Account(items[i]), items[i].inReplyTo[j], k)
    requires forall l :: 0 <= l < j && items[i].inReplyTo[l] != "" ==>
               !Held(rows, Account(items[i]), items[i].inReplyTo[l])
    ensures FiledThread(rows, items, dedupe, i) ==
            if Text.Trim(rows[k].thread) != "" then rows[k].thread else rows[k].id
  {
    hide Whole, FiledThread, Tried, NoneEarlier, Held;
    ReplyIsTried(items[i], j);
    JoinsStored(rows, items, dedupe, i, items[i].inReplyTo[j], Ahead(items[i].inReplyTo[..j]), k);
  }

  /** And then the last reference that it holds. */
  lemma StoredReferenceDecides(rows: seq<Row>, items: seq<Item>, dedupe: bool, i: nat, j: nat, k: nat)
    requires Whole(rows, items, dedupe) && i < |items| && NoneEarlier(items, i)
    requires j < |items[i].references| && items[i].references[j] != ""
    requires OldestHeld(rows, Account(items[i]), items[i].references[j], k)
    requires forall id :: id in items[i].inReplyTo && id != "" ==> !Held(rows, Account(items[i]), id)
    requires forall l :: j < l < |items[i].references| && items[i].references[l] != "" ==>
               !Held(rows, Account(items[i]), items[i].references[l])
    ensures FiledThread(rows, items, dedupe, i) ==
            if Text.Trim(rows[k].thread) != "" then rows[k].thread else rows[k].id
  {
    hide Whole, FiledThread, Tried, NoneEarlier, Held;
    ReferenceIsTried(items[i], j);
    JoinsStored(rows, items, dedupe, i, items[i].references[j],
                Ahead(items[i].inReplyTo) + Ahead(items[i].references[j + 1..]), k);
  }

  /** Item `j` is the first that names the id. */
  predicate FirstToName(items: seq<Item>, id: string, j: nat)
    requires j < |items|
  {
    Names(items[j], id) && forall l :: 0 <= l < j ==> !Names(items[l], id)
  }

  /** A message that answers nothing known joins the first earlier message that
      names it, and starts a thread of its own if there is none. */
  lemma UnansweringDecides(rows: seq<Row>, items: seq<Item>, dedupe: bool, i: nat)
    requires Whole(rows, items, dedupe) && i < |items| && NoneEarlier(items, i) && NoneHeld(rows, items[i])
    ensures forall j :: 0 <= j < i && FirstToName(items, items[i].messageId, j) ==>
              FiledThread(rows, items, dedupe, i) == FiledThread(rows, items, dedupe, j)
    ensures (forall j :: 0 <= j < i ==> !Names(items[j], items[i].messageId)) ==>
              FiledThread(rows, items, dedupe, i) == items[i].env.newThread
  {
    hide WellNamed, AllImported, FiledThread, Candidates, NoneEarlier, NoneHeld;
    var id := items[i].messageId;
    NoParent(items, i);
    NoStored(rows, items[i]);
    forall j | 0 <= j < i ensures Cites(items[j], id) <==> Names(items[j], id) {
      CitesAreNames(items[j], id);
    }
    ThreadsAreDefined(rows, items, dedupe, i);
    forall j | 0 <= j < i && FirstToName(items, id, j)
      ensures FiledThread(rows, items, dedupe, i) == FiledThread(rows, items, dedupe, j)
    {
      assert FirstCiter(items, id, i) == j;
      ThreadsAreDefined(rows, items, dedupe, j);
    }
  }
}
