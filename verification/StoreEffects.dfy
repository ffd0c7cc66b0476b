/** Row by row, what a committed transaction changed and when it commits. */
module StoreEffects {
  import opened Text
  import opened MailTables
  import opened Transactions
  import opened StoreRuns
  import opened Wrappers

  /** The rows of `u` are those of `t`, with the same contents, except for the
      keys in `touched`. */
  ghost predicate SameOutside(t: Tables, u: Tables, touched: set<RowKey>) {
    && (forall k :: k in t.rows && k !in touched ==> k in u.rows && u.rows[k] == t.rows[k])
    && (forall k :: k in u.rows && k !in touched ==> k in t.rows)
  }

  ghost function NewRow(t: Tables, source: FolderKey, target: FolderKey, order: seq<EmailId>, i: nat): Membership
    requires target in t.folders && i < |order| && RowKey(source, order[i]) in t.rows
  {
    Membership(t.folders[target].nextUid + i, t.rows[RowKey(source, order[i])].flags,
        t.folders[target].highestModSeq + 1 + i)
  }

  /** The listed members of `source` gained rows in `target`, in list order,
      under consecutive UIDs and mod-sequences and with their flags. */
  ghost predicate Added(t: Tables, u: Tables, source: FolderKey, target: FolderKey, order: seq<EmailId>)
    requires target in t.folders
    requires forall id :: id in order ==> RowKey(source, id) in t.rows
  {
    && u.emails == t.emails && u.mailboxes == t.mailboxes
    && u.folders == t.folders[target := Folder(t.folders[target].nextUid + |order|,
       t.folders[target].highestModSeq + |order|)]
    && SameOutside(t, u, SourceRows(target, order))
    && (forall i :: 0 <= i < |order| ==>
          && RowKey(target, order[i]) in u.rows
          && u.rows[RowKey(target, order[i])] == NewRow(t, source, target, order, i))
  }

  lemma AddedStep(t: Tables, u: Tables, source: FolderKey, target: FolderKey, order: seq<EmailId>)
    requires target in t.folders && order != [] && source != target
    requires forall id :: id in order ==> RowKey(source, id) in t.rows
    requires forall i :: 1 <= i < |order| ==> order[i] != order[0]
    requires Added(AddRow(t, target, order[0], t.rows[RowKey(source, order[0])].flags), u, source, target, order[1..])
    ensures Added(t, u, source, target, order)
  {
    var rest := order[1..];
    var t1 := AddRow(t, target, order[0], t.rows[RowKey(source, order[0])].flags);
    var k0 := RowKey(target, order[0]);
    assert SourceRows(target, order) == SourceRows(target, rest) + {k0};
    assert k0 !in SourceRows(target, rest);
    forall i | 0 <= i < |order|
      ensures RowKey(target, order[i]) in u.rows
              && u.rows[RowKey(target, order[i])] == NewRow(t, source, target, order, i)
    {
      if i > 0 {
        assert rest[i - 1] == order[i];
        assert u.rows[RowKey(target, rest[i - 1])] == NewRow(t1, source, target, rest, i - 1);
      }
    }
  }

  /** Closed form of the copy loop, and exactly when it clashes. */
  lemma {:induction false} AddAllEffect(t: Tables, source: FolderKey, target: FolderKey, order: seq<EmailId>)
    requires Inv(t) && target in t.folders && source.mailbox == target.mailbox
    requires forall id :: id in order ==> RowKey(source, id) in t.rows
    requires forall i, j :: 0 <= i < j < |order| ==> order[i] != order[j]
    ensures AddAll(t, source, target, order).Committed? <==> forall id :: id in order ==> RowKey(target, id) !in t.rows
    ensures AddAll(t, source, target, order).Committed? ==>
            Added(t, AddAll(t, source, target, order).tables, source, target, order)
    decreases |order|
  {
    hide Inv, Evolves, Added;
    if order == [] {
      NothingAdded(t, source, target);
    } else {
      var id0 := order[0];
      assert id0 in order;
      ClashIsKey(t, target, id0);
      if RowKey(target, id0) !in t.rows {
        RowFacts(t, RowKey(source, id0));
        AddRowAdvances(t, target, id0, t.rows[RowKey(source, id0)].flags);
        var t1 := AddRow(t, target, id0, t.rows[RowKey(source, id0)].flags);
        AddAllEffect(t1, source, target, order[1..]);
        assert forall id :: id in order ==> id == id0 || id in order[1..];
        assert forall id :: id in order[1..] ==> id in order && id != id0;
        var o := AddAll(t1, source, target, order[1..]);
        if o.Committed? {
          AddedStep(t, o.tables, source, target, order);
        }
      }
    }
  }

  lemma NothingAdded(t: Tables, source: FolderKey, target: FolderKey)
    requires target in t.folders
    ensures Added(t, t, source, target, [])
  {
    assert t.folders == t.folders[target := t.folders[target]];
  }

  ghost predicate Moved(t: Tables, u: Tables, source: FolderKey, target: FolderKey, order: seq<EmailId>)
    requires source in t.folders && target in t.folders
    requires forall id :: id in order ==> RowKey(source, id) in t.rows
  {
    && u.mailboxes == t.mailboxes
    && SameOutside(t, u, SourceRows(source, order) + SourceRows(target, order))
    && (forall i :: 0 <= i < |order| ==>
          && RowKey(source, order[i]) !in u.rows
          && RowKey(target, order[i]) in u.rows
             && u.rows[RowKey(target, order[i])] == NewRow(t, source, target, order, i))
    && u.folders == t.folders[source := t.folders[source].(highestModSeq := t.folders[source].highestModSeq + 1)]
                             [target := Folder(t.folders[target].nextUid + |order|,
                                 t.folders[target].highestModSeq + |order|)]
    && u.emails.Keys == t.emails.Keys
    && (forall id :: id in t.emails ==>
          u.emails[id] == Refiled(t.emails[id], id in order && t.emails[id].mailbox == target.mailbox, target.name))
  }

  function Refiled(email: Email, moved: bool, name: string): Email {
    var http := HttpFolderForProtocolName(name);
    if moved && http.Some? then email.(folder := http.value) else email
  }

  /** The memberships of a move: added to the target, then removed from the source. */
  lemma RowsMoved(t: Tables, t1: Tables, source: FolderKey, target: FolderKey, order: seq<EmailId>)
    requires source in t.folders && target in t.folders && source != target
    requires forall id :: id in order ==> RowKey(source, id) in t.rows
    requires Added(t, t1, source, target, order)
    ensures var t2 := RemoveRows(t1, SourceRows(source, order), {source});
            t2.emails == t.emails && Moved(t, RefileAll(t2, order, target), source, target, order)
  {
    var t2 := RemoveRows(t1, SourceRows(source, order), {source});
    forall i | 0 <= i < |order|
      ensures RowKey(source, order[i]) !in t2.rows
      ensures RowKey(target, order[i]) in t2.rows
              && t2.rows[RowKey(target, order[i])] == NewRow(t, source, target, order, i)
    {
      assert RowKey(source, order[i]) in SourceRows(source, order);
      assert RowKey(target, order[i]) !in SourceRows(source, order);
    }
    assert t2.folders == t.folders[source := t.folders[source].(highestModSeq := t.folders[source].highestModSeq + 1)]
                                  [target := Folder(t.folders[target].nextUid + |order|,
                                      t.folders[target].highestModSeq + |order|)];
  }

  function RefileAll(t: Tables, order: seq<EmailId>, target: FolderKey): Tables {
    t.(emails := map id | id in t.emails :: Refiled(t.emails[id], id in order
        && t.emails[id].mailbox == target.mailbox, target.name))
  }

  lemma RefileIsSetHttpFolder(t: Tables, order: seq<EmailId>, target: FolderKey)
    ensures RefileAll(t, order, target) ==
            match HttpFolderForProtocolName(target.name)
            case None => t
            case Some(http) => SetHttpFolder(t, target.mailbox, (set id | id in order), http)
  {
    hide HttpFolderForProtocolName;
    match HttpFolderForProtocolName(target.name)
    case None =>
      assert RefileAll(t, order, target).emails == t.emails;
    case Some(http) =>
      assert RefileAll(t, order, target).emails ==
          SetHttpFolder(t, target.mailbox, (set id | id in order), http).emails;
  }

  /** A protocol move commits iff both folders exist and no moved message
      already sits in the target; moving within one folder changes nothing. */
  lemma MoveCommits(t: Tables, mailbox: MailboxId, from: string, to: string, ids: set<EmailId>, order: seq<EmailId>)
    requires Inv(t) && Enumerates(order, Members(t, FolderKey(mailbox, from), ids))
    ensures MoveMessages(t, mailbox, from, to, ids, order).Committed? <==>
              (&& FolderKey(mailbox, from) in t.folders && FolderKey(mailbox, to) in t.folders
               && forall id :: id in Members(t, FolderKey(mailbox, from), ids) ==>
                  RowKey(FolderKey(mailbox, to), id) !in t.rows)
    ensures MoveMessages(t, mailbox, from, from, ids, order).Committed? ==>
            MoveMessages(t, mailbox, from, from, ids, order).tables == t
  {
    hide Inv, Added, HttpFolderForProtocolName;
    var source, target := FolderKey(mailbox, from), FolderKey(mailbox, to);
    if source in t.folders && target in t.folders {
      AddAllEffect(t, source, target, order);
    }
    if source in t.folders {
      AddAllEffect(t, source, source, order);
      assert order == [] || (order[0] in order && order[0] in Members(t, source, ids));
      if AddAll(t, source, source, order).Committed? {
        RefileIsSetHttpFolder(t, order, source);
        assert RefileAll(t, order, source).emails == t.emails;
      }
    }
  }

  /** A move to another folder carries each moved message, with its flags, from
      one membership to the other and files it in the HTTP model. */
  lemma MoveEffect(t: Tables, mailbox: MailboxId, from: string, to: string, ids: set<EmailId>, order: seq<EmailId>)
    requires Inv(t) && Enumerates(order, Members(t, FolderKey(mailbox, from), ids)) && from != to
    requires MoveMessages(t, mailbox, from, to, ids, order).Committed?
    ensures Moved(t, MoveMessages(t, mailbox, from, to, ids, order).tables, FolderKey(mailbox, from),
            FolderKey(mailbox, to), order)
  {
    hide Inv, Added, Moved, HttpFolderForProtocolName;
    var source, target := FolderKey(mailbox, from), FolderKey(mailbox, to);
    AddAllEffect(t, source, target, order);
    var t1 := AddAll(t, source, target, order).tables;
    RowsMoved(t, t1, source, target, order);
    RefileIsSetHttpFolder(RemoveRows(t1, SourceRows(source, order), {source}), order, target);
  }

  // ---- STORE ----

  /** STORE leaves the skipped rows alone and gives every other listed row the
      merged flags under a fresh mod-sequence; nothing else changes. */
  ghost predicate Flagged(t: Tables, u: Tables, f: FolderKey, order: seq<EmailId>, requested: Flags,
      mode: FlagMode, since: nat)
    requires f in t.folders
    requires forall id :: id in order ==> RowKey(f, id) in t.rows
  {
    && u.emails == t.emails && u.mailboxes == t.mailboxes
    && u.folders.Keys == t.folders.Keys && u.rows.Keys == t.rows.Keys
    && (forall g :: g in t.folders && g != f ==> u.folders[g] == t.folders[g])
    && u.folders[f].nextUid == t.folders[f].nextUid && u.folders[f].highestModSeq >= t.folders[f].highestModSeq
    && (forall k :: k in t.rows && !(k.folder == f && k.email in order) ==> u.rows[k] == t.rows[k])
    && (forall id :: id in order ==> RowFlagged(t.rows[RowKey(f, id)], u.rows[RowKey(f, id)], t.folders[f],
       u.folders[f], requested, mode, since))
  }

  ghost predicate RowFlagged(before: Membership, after: Membership, was: Folder, now: Folder, requested: Flags,
      mode: FlagMode, since: nat)
  {
    if since > 0 && before.modSeq > since then after == before
    else
      && after.uid == before.uid
      && was.highestModSeq < after.modSeq <= now.highestModSeq
      && forall flag :: flag in after.flags <==>
           match mode
           case Replace => flag in requested
           case Add => flag in before.flags || flag in requested
           case Remove => flag in before.flags && flag !in requested
  }

  lemma {:induction false} StoreEffect(t: Tables, f: FolderKey, order: seq<EmailId>, requested: Flags,
      mode: FlagMode, since: nat)
    requires f in t.folders
    requires forall id :: id in order ==> RowKey(f, id) in t.rows
    requires forall i, j :: 0 <= i < j < |order| ==> order[i] != order[j]
    ensures Flagged(t, StoreAll(t, f, order, requested, mode, since), f, order, requested, mode, since)
    decreases |order|
  {
    if order != [] {
      var k, rest := RowKey(f, order[0]), order[1..];
      var t1 := if Skipped(t.rows[k], since) then t else Reflag(t, k, MergedFlags(t.rows[k].flags, requested, mode));
      hide Flagged;
      StoreEffect(t1, f, rest, requested, mode, since);
      FlaggedStep(t, StoreAll(t1, f, rest, requested, mode, since), f, order, requested, mode, since);
    }
  }

  lemma FlaggedStep(t: Tables, u: Tables, f: FolderKey, order: seq<EmailId>, requested: Flags,
      mode: FlagMode, since: nat)
    requires f in t.folders && order != []
    requires forall id :: id in order ==> RowKey(f, id) in t.rows
    requires forall i :: 1 <= i < |order| ==> order[i] != order[0]
    requires var k := RowKey(f, order[0]);
             var t1 := if Skipped(t.rows[k], since) then t
                 else Reflag(t, k, MergedFlags(t.rows[k].flags, requested, mode));
             Flagged(t1, u, f, order[1..], requested, mode, since)
    ensures Flagged(t, u, f, order, requested, mode, since)
  {
    var k, rest := RowKey(f, order[0]), order[1..];
    var t1 := if Skipped(t.rows[k], since) then t else Reflag(t, k, MergedFlags(t.rows[k].flags, requested, mode));
    assert u.rows[k] == t1.rows[k];
    forall id | id in order
      ensures RowFlagged(t.rows[RowKey(f, id)], u.rows[RowKey(f, id)], t.folders[f], u.folders[f], requested,
              mode, since)
    {
      if id != order[0] {
        assert id in rest && t1.rows[RowKey(f, id)] == t.rows[RowKey(f, id)];
        assert RowFlagged(t1.rows[RowKey(f, id)], u.rows[RowKey(f, id)], t1.folders[f], u.folders[f], requested,
            mode, since);
      }
    }
  }

  // ---- the HTTP move ----

  lemma RowsOfMessage(t: Tables, id: EmailId, k: RowKey, order: seq<FolderKey>)
    requires Inv(t) && id in t.emails && Enumerates(order, Holding(t, t.emails[id].mailbox, id))
    ensures k in t.rows && k.email == id <==> k.folder in order && k == RowKey(k.folder, id)
  {
    if k in t.rows && k.email == id {
      RowFacts(t, k);
      assert k.folder in Holding(t, t.emails[id].mailbox, id);
    }
    if k.folder in order {
      assert k.folder in Holding(t, t.emails[id].mailbox, id);
    }
  }

  /** MoveEmail commits iff the folder is valid and the account owns the
      message, in every state that keeps the invariant. */
  lemma MoveEmailCommits(t: Tables, account: AccountId, id: EmailId, folder: string, order: seq<FolderKey>)
    requires Inv(t) && (id in t.emails ==> Enumerates(order, Holding(t, t.emails[id].mailbox, id)))
    ensures MoveEmail(t, account, id, folder, order).Committed? <==>
              ValidFolder(Lower(Trim(folder))) && id in t.emails && t.emails[id].account == account
  {
    hide Inv, Evolves, ProtocolFolderName, Lower, Trim, ValidFolder;
    if id in t.emails {
      var mailbox := t.emails[id].mailbox;
      var target := FolderKey(mailbox, ProtocolFolderName(Lower(Trim(folder))));
      var t1 := EnsureFolders(t, mailbox);
      EnsureAdvances(t, mailbox);
      var displaced := (set f | f in order) - {target};
      RemoveRowsAdvances(t1, (set f | f in displaced :: RowKey(f, id)), displaced);
      var t2 := if displaced == {} then t1 else Expel(t1, id, displaced);
      ClashIsKey(t2, target, id);
      RowsOfMessage(t, id, RowKey(target, id), order);
    }
  }

  /** The message has exactly one membership, `home`. A membership it already
      had there stays as it was; otherwise the new one carries the flags of a
      membership it held, or those of its HTTP state when it held none. No
      other message's row changes. */
  ghost predicate Homed(t: Tables, u: Tables, id: EmailId, home: RowKey)
    requires id in t.emails
  {
    && home in u.rows
    && (forall k :: k in u.rows && k.email == id ==> k == home)
    && SameOutside(t, u, Memberships(t, id) + {home})
    && (home in t.rows ==> u.rows[home] == t.rows[home])
    && (home !in t.rows && Memberships(t, id) != {} ==>
          exists j :: j in Memberships(t, id) && u.rows[home].flags == t.rows[j].flags)
    && (Memberships(t, id) == {} ==> u.rows[home].flags == HttpFlags(t.emails[id]))
  }

  lemma EnsureKeepsRows(t: Tables, mailbox: MailboxId)
    ensures EnsureFolders(t, mailbox).rows == t.rows && EnsureFolders(t, mailbox).emails == t.emails
  {
  }

  lemma ExpelEffect(t: Tables, id: EmailId, fs: set<FolderKey>)
    ensures var u := Expel(t, id, fs);
            && u.emails == t.emails
            && (forall k :: k in u.rows <==> k in t.rows && !(k.email == id && k.folder in fs))
            && (forall k :: k in u.rows ==> u.rows[k] == t.rows[k])
  {
    forall k
      ensures k in (set f | f in fs :: RowKey(f, id)) <==> k.email == id && k.folder in fs
    {
      assert k.email == id ==> k == RowKey(k.folder, id);
    }
  }

  /** The tables after the old memberships went. */
  function Displaced(t: Tables, id: EmailId, target: FolderKey, order: seq<FolderKey>): Tables {
    var displaced := (set f | f in order) - {target};
    if displaced == {} then EnsureFolders(t, target.mailbox) else Expel(EnsureFolders(t, target.mailbox), id, displaced)
  }

  lemma DisplacedEffect(t: Tables, id: EmailId, target: FolderKey, order: seq<FolderKey>)
    ensures var u := Displaced(t, id, target, order);
            && u.emails == t.emails
            && (forall k :: k in u.rows <==> k in t.rows && !(k.email == id && k.folder in order && k.folder != target))
            && (forall k :: k in u.rows ==> u.rows[k] == t.rows[k])
  {
    hide EnsureFolders, Expel;
    EnsureKeepsRows(t, target.mailbox);
    ExpelEffect(EnsureFolders(t, target.mailbox), id, (set f | f in order) - {target});
  }

  lemma RelocateEffect(t: Tables, id: EmailId, name: string, order: seq<FolderKey>)
    requires id in t.emails && (forall f :: f in order ==> RowKey(f, id) in t.rows)
    requires forall k :: k in t.rows && k.email == id ==> k.folder in order
    requires Relocate(t, id, name, order).Committed?
    ensures Homed(t, Relocate(t, id, name, order).tables, id, RowKey(FolderKey(t.emails[id].mailbox, name), id))
    ensures Relocate(t, id, name, order).tables.emails == t.emails
  {
    hide Clash, EnsureFolders, Expel, HttpFlags, Displaced;
    var target := FolderKey(t.emails[id].mailbox, name);
    DisplacedEffect(t, id, target, order);
    RelocateIs(t, id, name, order);
    assert forall j :: j in Memberships(t, id) <==> j.email == id && j.folder in order;
    if order != [] {
      assert order[0] in order && RowKey(order[0], id) in Memberships(t, id);
    }
  }

  lemma RelocateIs(t: Tables, id: EmailId, name: string, order: seq<FolderKey>)
    requires id in t.emails && (forall f :: f in order ==> RowKey(f, id) in t.rows)
    requires Relocate(t, id, name, order).Committed?
    ensures var target := FolderKey(t.emails[id].mailbox, name);
            var u := Displaced(t, id, target, order);
            && target in u.folders
            && Relocate(t, id, name, order).tables == if target in order then u
               else AddRow(u, target, id, CarriedFlags(t, id, order))
  {
    hide CarriedFlags, Clash, EnsureFolders;
  }

  /** From any state, MoveEmail re-establishes the agreement of both folder
      models for its message. */
  lemma MoveEmailRepairs(t: Tables, account: AccountId, id: EmailId, folder: string, order: seq<FolderKey>)
    requires Inv(t) && id in t.emails && Enumerates(order, Holding(t, t.emails[id].mailbox, id))
    requires MoveEmail(t, account, id, folder, order).Committed?
    ensures var u := MoveEmail(t, account, id, folder, order).tables;
            && u.emails == t.emails[id := t.emails[id].(folder := Lower(Trim(folder)))]
            && Homed(t, u, id, RowKey(FolderKey(t.emails[id].mailbox, ProtocolFolderName(Lower(Trim(folder)))), id))
  {
    hide Inv, ProtocolFolderName, Lower, Trim, ValidFolder, Relocate;
    forall k | k in t.rows && k.email == id
      ensures k.folder in order
    {
      RowsOfMessage(t, id, k, order);
    }
    RelocateEffect(t, id, ProtocolFolderName(Lower(Trim(folder))), order);
    var u := MoveEmail(t, account, id, folder, order).tables;
    assert u.emails == t.emails[id := t.emails[id].(folder := Lower(Trim(folder)))];
  }

  // ---- deleting for good ----

  /** Exactly the messages `ids` and their memberships are gone; the folders
      that lost one, and no others, have a new highest mod-sequence. */
  ghost predicate Purged(t: Tables, u: Tables, ids: set<EmailId>) {
    && u.mailboxes == t.mailboxes && u.folders.Keys == t.folders.Keys
    && u.emails == t.emails - ids
    && (forall k :: k in u.rows <==> k in t.rows && k.email !in ids)
    && (forall k :: k in u.rows ==> u.rows[k] == t.rows[k])
    && (forall f :: f in t.folders ==>
          && u.folders[f].nextUid == t.folders[f].nextUid
          && u.folders[f].highestModSeq >= t.folders[f].highestModSeq
          && (u.folders[f].highestModSeq > t.folders[f].highestModSeq <==> LosesRow(t, f, ids)))
  }

  ghost predicate LosesRow(t: Tables, f: FolderKey, ids: set<EmailId>) {
    exists k :: k in t.rows && k.folder == f && k.email in ids
  }

  lemma PurgeOne(t: Tables, id: EmailId)
    ensures Purged(t, PurgeEmail(t, id), {id})
  {
    var gone := Memberships(t, id);
    var bumped := set k | k in gone :: k.folder;
    forall f
      ensures f in bumped <==> LosesRow(t, f, {id})
    {
      if LosesRow(t, f, {id}) {
        var k :| k in t.rows && k.folder == f && k.email in {id};
        assert k in gone;
      }
    }
  }

  lemma PurgedTwice(t: Tables, u: Tables, v: Tables, a: set<EmailId>, b: set<EmailId>)
    requires Purged(t, u, a) && Purged(u, v, b)
    ensures Purged(t, v, a + b)
  {
    assert v.emails == t.emails - (a + b);
    forall f | f in t.folders
      ensures LosesRow(t, f, a + b) <==> LosesRow(t, f, a) || LosesRow(u, f, b)
    {
      if LosesRow(t, f, a + b) && !LosesRow(t, f, a) {
        var k :| k in t.rows && k.folder == f && k.email in a + b;
        assert k in u.rows;
      }
    }
  }

  lemma {:induction false} PurgeEffect(t: Tables, ids: seq<EmailId>)
    ensures Purged(t, PurgeAll(t, ids), set id | id in ids)
    decreases |ids|
  {
    if ids == [] {
      assert t.emails == t.emails - (set id | id in ids);
    } else {
      hide Purged, PurgeEmail;
      var t1 := PurgeEmail(t, ids[0]);
      PurgeOne(t, ids[0]);
      PurgeEffect(t1, ids[1..]);
      PurgedTwice(t, t1, PurgeAll(t, ids), {ids[0]}, set id | id in ids[1..]);
      assert (set id | id in ids) == {ids[0]} + (set id | id in ids[1..]);
    }
  }
}
