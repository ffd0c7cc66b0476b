/** The mail store itself: tables updated in place by transactions that either
    run to the end or put the tables back. */
module ProtocolStore {
  import opened FlagNames
  import opened Text
  import opened MailTables
  import opened Transactions
  import opened StoreEffects
  import opened Wrappers

  datatype StoreResult = StoreResult(email: EmailId, uid: nat, flags: Flags, modSeq: nat)

  lemma AddAllUnfolds(t: Tables, source: FolderKey, target: FolderKey, order: seq<EmailId>)
    requires target in t.folders && order != [] && (forall id :: id in order ==> RowKey(source, id) in t.rows)
    ensures Clash(t, target, order[0]) ==> AddAll(t, source, target, order).RolledBack?
    ensures !Clash(t, target, order[0]) ==>
              AddAll(t, source, target, order) ==
              AddAll(AddRow(t, target, order[0], t.rows[RowKey(source, order[0])].flags), source, target, order[1..])
  {
  }

  lemma AddNothing(t: Tables, source: FolderKey, target: FolderKey)
    requires target in t.folders
    ensures AddAll(t, source, target, []) == Committed(t)
  {
  }

  /** What STORE reports to the client: the rows it updated. */
  function StoreReport(t: Tables, f: FolderKey, order: seq<EmailId>, requested: Flags, mode: FlagMode,
      since: nat): seq<StoreResult>
    requires f in t.folders
    requires forall id :: id in order ==> RowKey(f, id) in t.rows
    decreases |order|
  {
    if order == [] then []
    else
      var k := RowKey(f, order[0]);
      if Skipped(t.rows[k], since) then StoreReport(t, f, order[1..], requested, mode, since)
      else
        var t1 := Reflag(t, k, MergedFlags(t.rows[k].flags, requested, mode));
        var row := t1.rows[k];
        [StoreResult(order[0], row.uid, row.flags, row.modSeq)] + StoreReport(t1, f, order[1..], requested, mode, since)
  }

  /** One turn of STORE. */
  ghost function Stored(t: Tables, f: FolderKey, id: EmailId, requested: Flags, mode: FlagMode, since: nat): Tables
    requires f in t.folders && RowKey(f, id) in t.rows
  {
    var k := RowKey(f, id);
    if Skipped(t.rows[k], since) then t else Reflag(t, k, MergedFlags(t.rows[k].flags, requested, mode))
  }

  lemma StoredKeepsOthers(t: Tables, f: FolderKey, id: EmailId, requested: Flags, mode: FlagMode, since: nat)
    requires f in t.folders && RowKey(f, id) in t.rows
    ensures var u := Stored(t, f, id, requested, mode, since);
            f in u.folders && u.rows.Keys == t.rows.Keys && forall k :: k in t.rows && k != RowKey(f, id) ==>
                u.rows[k] == t.rows[k]
  {
  }

  /** Each entry is a listed row that was not skipped, as the store now holds it. */
  lemma {:induction false} EntriesAreStored(t: Tables, f: FolderKey, order: seq<EmailId>, requested: Flags,
      mode: FlagMode, since: nat, r: StoreResult)
    requires f in t.folders
    requires forall id :: id in order ==> RowKey(f, id) in t.rows
    requires forall i, j :: 0 <= i < j < |order| ==> order[i] != order[j]
    requires r in StoreReport(t, f, order, requested, mode, since)
    ensures var u, k := StoreAll(t, f, order, requested, mode, since), RowKey(f, r.email);
            && r.email in order && !Skipped(t.rows[k], since)
            && k in u.rows && u.rows[k] == Membership(r.uid, r.flags, r.modSeq)
    decreases |order|
  {
    if order != [] {
      var id, rest := order[0], order[1..];
      var t1 := Stored(t, f, id, requested, mode, since);
      StoredKeepsOthers(t, f, id, requested, mode, since);
      StoreAllUnfolds(t, f, order, requested, mode, since);
      StoreEffect(t1, f, rest, requested, mode, since);
      hide StoreAll, StoreReport, MergedFlags, RowFlagged;
      assert id !in rest && forall other :: other in rest ==> other in order;
      if r in StoreReport(t1, f, rest, requested, mode, since) {
        EntriesAreStored(t1, f, rest, requested, mode, since, r);
      }
    }
  }

  lemma {:induction false} EveryStoredIsReported(t: Tables, f: FolderKey, order: seq<EmailId>, requested: Flags,
      mode: FlagMode, since: nat, id: EmailId)
    requires f in t.folders
    requires forall other :: other in order ==> RowKey(f, other) in t.rows
    requires forall i, j :: 0 <= i < j < |order| ==> order[i] != order[j]
    requires id in order && !Skipped(t.rows[RowKey(f, id)], since)
    ensures exists r :: r in StoreReport(t, f, order, requested, mode, since) && r.email == id
    decreases |order|
  {
    var report := StoreReport(t, f, order, requested, mode, since);
    var t1 := Stored(t, f, order[0], requested, mode, since);
    StoredKeepsOthers(t, f, order[0], requested, mode, since);
    StoreAllUnfolds(t, f, order, requested, mode, since);
    hide StoreAll, StoreReport, MergedFlags, Reflag;
    if id == order[0] {
      assert report[0] in report && report[0].email == id;
    } else {
      assert order == [order[0]] + order[1..];
      EveryStoredIsReported(t1, f, order[1..], requested, mode, since, id);
      var r :| r in StoreReport(t1, f, order[1..], requested, mode, since) && r.email == id;
      assert r in report;
    }
  }

  /** The report names exactly the rows that were not skipped, with the values
      the store then holds for them. */
  lemma ReportIsExact(t: Tables, f: FolderKey, order: seq<EmailId>, requested: Flags, mode: FlagMode, since: nat)
    requires f in t.folders
    requires forall id :: id in order ==> RowKey(f, id) in t.rows
    requires forall i, j :: 0 <= i < j < |order| ==> order[i] != order[j]
    ensures var u := StoreAll(t, f, order, requested, mode, since);
            && (forall r :: r in StoreReport(t, f, order, requested, mode, since) ==>
                  && r.email in order && !Skipped(t.rows[RowKey(f, r.email)], since)
                  && RowKey(f, r.email) in u.rows && u.rows[RowKey(f, r.email)] == Membership(r.uid, r.flags, r.modSeq))
            && (forall id :: id in order && !Skipped(t.rows[RowKey(f, id)], since) ==>
                  exists r :: r in StoreReport(t, f, order, requested, mode, since) && r.email == id)
  {
    hide StoreAll, StoreReport;
    forall r | r in StoreReport(t, f, order, requested, mode, since)
      ensures r.email in order && !Skipped(t.rows[RowKey(f, r.email)], since)
      ensures RowKey(f, r.email) in StoreAll(t, f, order, requested, mode, since).rows
      ensures StoreAll(t, f, order, requested, mode, since).rows[RowKey(f, r.email)] ==
              Membership(r.uid, r.flags, r.modSeq)
    {
      EntriesAreStored(t, f, order, requested, mode, since, r);
    }
    forall id | id in order && !Skipped(t.rows[RowKey(f, id)], since)
      ensures exists r :: r in StoreReport(t, f, order, requested, mode, since) && r.email == id
    {
      EveryStoredIsReported(t, f, order, requested, mode, since, id);
    }
  }

  lemma StoreAllUnfolds(t: Tables, f: FolderKey, order: seq<EmailId>, requested: Flags, mode: FlagMode, since: nat)
    requires f in t.folders && order != [] && (forall id :: id in order ==> RowKey(f, id) in t.rows)
    ensures var k := RowKey(f, order[0]);
            StoreAll(t, f, order, requested, mode, since) ==
            StoreAll(if Skipped(t.rows[k], since) then t
                else Reflag(t, k, MergedFlags(t.rows[k].flags, requested, mode)),
                     f, order[1..], requested, mode, since)
    ensures var k := RowKey(f, order[0]);
            var t1 := Reflag(t, k, MergedFlags(t.rows[k].flags, requested, mode));
            StoreReport(t, f, order, requested, mode, since) ==
            if Skipped(t.rows[k], since) then StoreReport(t, f, order[1..], requested, mode, since)
            else [StoreResult(order[0], t1.rows[k].uid, t1.rows[k].flags, t1.rows[k].modSeq)] +
                 StoreReport(t1, f, order[1..], requested, mode, since)
  {
  }

  /** The flag map edit behind STORE and APPEND. */
  method MergeFlags(current: Flags, requested: seq<string>, mode: FlagMode) returns (merged: Flags)
    ensures merged == MergedFlags(current, (set flag | flag in requested), mode)
  {
    merged := if mode.Replace? then {} else current;
    for i := 0 to |requested|
      invariant merged == MergedFlags(current, (set flag | flag in requested[..i]), mode)
    {
      assert requested[..i + 1] == requested[..i] + [requested[i]];
      merged := if mode.Remove? then merged - {requested[i]} else merged + {requested[i]};
    }
    assert requested[..|requested|] == requested;
  }

  class MailStore {
    var mailboxes: map<MailboxId, AccountId>
    var folders: map<FolderKey, Folder>
    var rows: map<RowKey, Membership>
    var emails: map<EmailId, Email>

    function View(): Tables
      reads this
    {
      Tables(mailboxes, folders, rows, emails)
    }

    method Rollback(saved: Tables)
      modifies this
      ensures View() == saved
    {
      mailboxes, folders, rows, emails := saved.mailboxes, saved.folders, saved.rows, saved.emails;
    }

    /** SELECT the members of a folder among `ids`, in some order. */
    method FindMembers(f: FolderKey, ids: set<EmailId>) returns (order: seq<EmailId>)
      ensures Enumerates(order, Members(View(), f, ids))
    {
      order := [];
      var rest := Members(View(), f, ids);
      while rest != {}
        invariant forall id :: id in Members(View(), f, ids) <==> id in order || id in rest
        invariant forall id :: id in order ==> id !in rest
        invariant forall i, j :: 0 <= i < j < |order| ==> order[i] != order[j]
        decreases rest
      {
        var id :| id in rest;
        order, rest := order + [id], rest - {id};
      }
    }

    method FindHolding(mailbox: MailboxId, id: EmailId) returns (order: seq<FolderKey>)
      ensures Enumerates(order, Holding(View(), mailbox, id))
    {
      order := [];
      var rest := Holding(View(), mailbox, id);
      while rest != {}
        invariant forall f :: f in Holding(View(), mailbox, id) <==> f in order || f in rest
        invariant forall f :: f in order ==> f !in rest
        invariant forall i, j :: 0 <= i < j < |order| ==> order[i] != order[j]
        decreases rest
      {
        var f :| f in rest;
        order, rest := order + [f], rest - {f};
      }
    }

    method EnsureProtocolFolders(mailbox: MailboxId)
      modifies this`folders
      ensures View() == EnsureFolders(old(View()), mailbox)
    {
      for i := 0 to |DEFAULT_FOLDERS|
        invariant forall f :: f in old(folders) ==> f in folders && folders[f] == old(folders)[f]
        invariant forall f :: f in folders && f !in old(folders) ==>
                  f.mailbox == mailbox && f.name in DEFAULT_FOLDERS && folders[f] == Folder(1, 1)
        invariant forall name :: name in DEFAULT_FOLDERS[..i] ==> FolderKey(mailbox, name) in folders
      {
        var f := FolderKey(mailbox, DEFAULT_FOLDERS[i]);
        if f !in folders {
          folders := folders[f := Folder(1, 1)];
        }
      }
      assert DEFAULT_FOLDERS[..|DEFAULT_FOLDERS|] == DEFAULT_FOLDERS;
      assert folders == EnsureFolders(old(View()), mailbox).folders;
    }

    /** INSERT one membership row; false when a unique index objects. */
    method Create(k: RowKey, row: Membership) returns (ok: bool)
      modifies this`rows
      ensures ok <==>
                && k !in old(rows)
                && forall j :: j in old(rows) && j.folder == k.folder ==> old(rows)[j].uid != row.uid
      ensures rows == if ok then old(rows)[k := row] else old(rows)
    {
      ok := k !in rows && !exists j :: j in rows && j.folder == k.folder && rows[j].uid == row.uid;
      if ok {
        rows := rows[k := row];
      }
    }

    /** Inside a caller's transaction, which rolls back when this fails. */
    method AddFolderMembership(mailbox: MailboxId, name: string, id: EmailId, flags: Flags) returns (ok: bool)
      modifies this`folders, this`rows
      ensures ok == AddMembership(old(View()), mailbox, name, id, flags).Committed?
      ensures ok ==> View() == AddMembership(old(View()), mailbox, name, id, flags).tables
    {
      hide EnsureFolders;
      EnsureProtocolFolders(mailbox);
      var f := FolderKey(mailbox, name);
      if f !in folders {
        return false;
      }
      var uid, modSeq := folders[f].nextUid, folders[f].highestModSeq + 1;
      ok := Create(RowKey(f, id), Membership(uid, flags, modSeq));
      if ok {
        folders := folders[f := Folder(uid + 1, modSeq)];
      }
    }

    /** The transaction of SendEmail, ReceiveEmail and one import item. */
    method DeliverMessage(id: EmailId, email: Email) returns (ok: bool)
      modifies this
      ensures ok == Deliver(old(View()), id, email).Committed?
      ensures View() == Step(old(View()), DeliverOp(id, email))
    {
      var saved := View();
      if id in emails || email.mailbox !in mailboxes {
        return false;
      }
      emails := emails[id := email.(sourced := true)];
      if email.dmarcIntake {
        return true;
      }
      ok := AddFolderMembership(email.mailbox, ProtocolFolderName(email.folder), id, {});
      if !ok {
        Rollback(saved);
      }
    }

    method AppendProtocolMessage(id: EmailId, mailbox: MailboxId, folderName: string,
        flags: seq<string>) returns (ok: bool)
      modifies this
      ensures ok == AppendMessage(old(View()), id, mailbox, folderName, flags).Committed?
      ensures View() == Step(old(View()), AppendOp(id, mailbox, folderName, flags))
    {
      var saved := View();
      var name := Trim(folderName);
      if mailbox !in mailboxes || name == "" || id in emails {
        return false;
      }
      emails := emails[id := Appended(View(), mailbox, name, flags)];
      var stored, _ := SplitProtocolFlags(flags);
      ok := AddFolderMembership(mailbox, name, id, set flag | flag in stored);
      if !ok {
        Rollback(saved);
      }
    }

    method CopyToMailbox(source: EmailId, id: EmailId, mailbox: MailboxId, name: string) returns (ok: bool)
      modifies this
      ensures ok == CopyEmail(old(View()), source, id, mailbox, name).Committed?
      ensures View() == Step(old(View()), CopyEmailOp(source, id, mailbox, name))
    {
      var saved := View();
      if source !in emails || mailbox !in mailboxes || id in emails {
        return false;
      }
      emails := emails[id := Copied(emails[source], mailbox, name)];
      ok := AddFolderMembership(mailbox, name, id, {});
      if !ok {
        Rollback(saved);
      }
    }

    method BackfillMessage(id: EmailId) returns (ok: bool)
      modifies this
      ensures ok == Backfill(old(View()), id).Committed?
      ensures View() == Step(old(View()), BackfillOp(id))
    {
      var saved := View();
      if id !in emails || emails[id].sourced {
        return false;
      }
      var email := emails[id];
      emails := emails[id := email.(sourced := true)];
      ok := AddFolderMembership(email.mailbox, ProtocolFolderName(email.folder), id, {});
      if !ok {
        Rollback(saved);
      }
    }

    /** The loop MOVE and COPY share: one new target row per message found, with
        the counters kept in `folder` until the caller saves it. */
    method CreateCopies(source: FolderKey, target: FolderKey, order: seq<EmailId>) returns (ok: bool, folder: Folder)
      requires target in folders && (forall id :: id in order ==> RowKey(source, id) in rows)
      modifies this`rows
      ensures ok == AddAll(old(View()), source, target, order).Committed?
      ensures ok ==> View().(folders := folders[target := folder]) == AddAll(old(View()), source, target, order).tables
      ensures ok ==> forall k :: k in rows && k.folder != target ==> k in old(rows) && rows[k] == old(rows)[k]
      ensures ok ==> forall k :: k in old(rows) ==> k in rows && rows[k] == old(rows)[k]
    {
      hide AddAll;
      var loaded := rows;
      folder := folders[target];
      ghost var t := View();
      ghost var cur := t;
      assert t.(folders := folders[target := folder]) == t;
      for i := 0 to |order|
        invariant cur == View().(folders := folders[target := folder])
        invariant forall k :: k in loaded ==> k in rows && rows[k] == loaded[k]
        invariant forall k :: k in rows && k.folder != target ==> k in loaded
        invariant AddAll(t, source, target, order) == AddAll(cur, source, target, order[i..])
      {
        assert order[i] in order;
        AddAllUnfolds(cur, source, target, order[i..]);
        assert order[i..][1..] == order[i + 1..];
        var row := Membership(folder.nextUid, loaded[RowKey(source, order[i])].flags, folder.highestModSeq + 1);
        folder := Folder(folder.nextUid + 1, folder.highestModSeq + 1);
        ok := Create(RowKey(target, order[i]), row);
        if !ok {
          return;
        }
        cur := AddRow(cur, target, order[i], row.flags);
      }
      AddNothing(cur, source, target);
      ok := true;
    }

    method MoveProtocolMessages(mailbox: MailboxId, from: string, to: string, ids: set<EmailId>) returns (ok: bool,
        order: seq<EmailId>)
      modifies this
      ensures Enumerates(order, Members(old(View()), FolderKey(mailbox, from), ids))
      ensures ok == MoveMessages(old(View()), mailbox, from, to, ids, order).Committed?
      ensures View() == Step(old(View()), MoveOp(mailbox, from, to, ids, order))
    {
      var saved := View();
      var source, target := FolderKey(mailbox, from), FolderKey(mailbox, to);
      order := FindMembers(source, ids);
      if source !in folders || target !in folders {
        return false, order;
      }
      var sourceFolder := folders[source];
      var created, targetFolder := CreateCopies(source, target, order);
      if !created {
        Rollback(saved);
        return false, order;
      }
      ghost var t1 := AddAll(saved, source, target, order).tables;
      sourceFolder := sourceFolder.(highestModSeq := sourceFolder.highestModSeq + 1);
      rows := map k | k in rows && !(k.folder == source && k.email in ids) :: rows[k];
      folders := folders[source := sourceFolder];
      folders := folders[target := targetFolder];
      SavedRows(saved, t1, View(), source, target, ids, order);
      match HttpFolderForProtocolName(to) {
        case None =>
        case Some(http) => UpdateEmailFolder(mailbox, (set id | id in order), http);
      }
      ok := true;
    }

    method UpdateEmailFolder(mailbox: MailboxId, ids: set<EmailId>, folder: string)
      modifies this`emails
      ensures View() == SetHttpFolder(old(View()), mailbox, ids, folder)
    {
      emails := SetHttpFolder(View(), mailbox, ids, folder).emails;
    }

    method CopyProtocolMessages(mailbox: MailboxId, from: string, to: string, ids: set<EmailId>) returns (ok: bool,
        order: seq<EmailId>)
      modifies this
      ensures Enumerates(order, Members(old(View()), FolderKey(mailbox, from), ids))
      ensures ok == CopyMessages(old(View()), mailbox, from, to, ids, order).Committed?
      ensures View() == Step(old(View()), CopyOp(mailbox, from, to, ids, order))
    {
      var saved := View();
      var source, target := FolderKey(mailbox, from), FolderKey(mailbox, to);
      order := FindMembers(source, ids);
      if source !in folders || target !in folders {
        return false, order;
      }
      var created, targetFolder := CreateCopies(source, target, order);
      if created {
        folders := folders[target := targetFolder];
      } else {
        Rollback(saved);
      }
      ok := created;
    }

    /** The merged flags of one row, under the next mod-sequence of the folder. */
    method SaveFlags(f: FolderKey, folder: Folder, id: EmailId, row: Membership, flags: seq<string>, mode: FlagMode)
      returns (saved: Folder, updated: Membership)
      requires f in folders && RowKey(f, id) in rows && rows[RowKey(f, id)] == row
      modifies this`rows
      ensures saved == folder.(highestModSeq := folder.highestModSeq + 1)
      ensures updated == row.(flags := MergedFlags(row.flags, (set flag | flag in flags), mode),
              modSeq := saved.highestModSeq)
      ensures rows == old(rows)[RowKey(f, id) := updated]
      ensures View().(folders := folders[f := saved]) ==
              Reflag(old(View()).(folders := folders[f := folder]), RowKey(f, id), updated.flags)
    {
      var merged := MergeFlags(row.flags, flags, mode);
      saved := folder.(highestModSeq := folder.highestModSeq + 1);
      updated := row.(flags := merged, modSeq := saved.highestModSeq);
      rows := rows[RowKey(f, id) := updated];
    }

    /** The loop of STORE, with the counter kept in `folder` until it is saved. */
    method StoreRows(f: FolderKey, order: seq<EmailId>, flags: seq<string>, mode: FlagMode, unchangedSince: nat)
      returns (folder: Folder, results: seq<StoreResult>)
      requires f in folders && (forall id :: id in order ==> RowKey(f, id) in rows)
      requires forall i, j :: 0 <= i < j < |order| ==> order[i] != order[j]
      modifies this`rows
      ensures View().(folders := folders[f := folder]) ==
              StoreAll(old(View()), f, order, (set flag | flag in flags), mode, unchangedSince)
      ensures results == StoreReport(old(View()), f, order, (set flag | flag in flags), mode, unchangedSince)
    {
      hide StoreAll, StoreReport, MergedFlags, Reflag;
      var loaded := rows;
      folder, results := folders[f], [];
      ghost var requested: Flags := set flag | flag in flags;
      ghost var cur := View();
      ghost var goal := StoreAll(cur, f, order, requested, mode, unchangedSince);
      ghost var report := StoreReport(cur, f, order, requested, mode, unchangedSince);
      assert cur.(folders := folders[f := folder]) == cur;
      for i := 0 to |order|
        invariant rows.Keys == loaded.Keys
        invariant forall id :: id in order ==> RowKey(f, id) in rows
        invariant forall j :: i <= j < |order| ==> rows[RowKey(f, order[j])] == loaded[RowKey(f, order[j])]
        invariant cur == View().(folders := folders[f := folder])
        invariant goal == StoreAll(cur, f, order[i..], requested, mode, unchangedSince)
        invariant report == results + StoreReport(cur, f, order[i..], requested, mode, unchangedSince)
      {
        assert order[i] in order && order[i..][1..] == order[i + 1..];
        StoreAllUnfolds(cur, f, order[i..], requested, mode, unchangedSince);
        var row := loaded[RowKey(f, order[i])];
        if !(unchangedSince > 0 && row.modSeq > unchangedSince) {
          folder, row := SaveFlags(f, folder, order[i], row, flags, mode);
          cur := Reflag(cur, RowKey(f, order[i]), row.flags);
          Regroup(results, StoreResult(order[i], row.uid, row.flags, row.modSeq),
                  StoreReport(cur, f, order[i + 1..], requested, mode, unchangedSince));
          results := results + [StoreResult(order[i], row.uid, row.flags, row.modSeq)];
        }
      }
      StoreNothing(cur, f, requested, mode, unchangedSince);
    }

    method StoreProtocolFlags(mailbox: MailboxId, name: string, ids: set<EmailId>, flags: seq<string>, mode: FlagMode,
        unchangedSince: nat)
      returns (ok: bool, order: seq<EmailId>, results: seq<StoreResult>)
      modifies this
      ensures Enumerates(order, Members(old(View()), FolderKey(mailbox, name), ids))
      ensures ok == StoreFlags(old(View()), mailbox, name, ids, (set flag | flag in flags), mode, unchangedSince,
              order).Committed?
      ensures View() == Step(old(View()),
              StoreOp(mailbox, name, ids, (set flag | flag in flags), mode, unchangedSince, order))
      ensures ok ==> results == StoreReport(old(View()), FolderKey(mailbox, name), order, (set flag | flag in flags),
              mode, unchangedSince)
    {
      var f := FolderKey(mailbox, name);
      order := FindMembers(f, ids);
      results := [];
      if f !in folders {
        return false, order, [];
      }
      var folder;
      folder, results := StoreRows(f, order, flags, mode, unchangedSince);
      folders := folders[f := folder];
      ok := true;
    }

    method MoveEmailFolder(account: AccountId, id: EmailId, folder: string) returns (ok: bool, order: seq<FolderKey>)
      modifies this
      ensures id in old(emails) ==> Enumerates(order, Holding(old(View()), old(emails)[id].mailbox, id))
      ensures ok == MoveEmail(old(View()), account, id, folder, order).Committed?
      ensures View() == Step(old(View()), MoveEmailOp(account, id, folder, order))
    {
      var saved := View();
      order := [];
      var http := Lower(Trim(folder));
      if id !in emails {
        return false, [];
      }
      order := FindHolding(emails[id].mailbox, id);
      if !ValidFolder(http) || emails[id].account != account {
        return false, order;
      }
      var mailbox := emails[id].mailbox;
      assert forall f :: f in order ==> f in Holding(saved, mailbox, id) && RowKey(f, id) in rows;
      ok := RelocateFolderMembership(id, ProtocolFolderName(http), order);
      if ok {
        UpdateEmailFolder(mailbox, {id}, http);
      } else {
        Rollback(saved);
      }
    }

    /** Whether the target already holds the message, where else it sits, and
        the flags it carries. */
    method ScanMemberships(id: EmailId, target: FolderKey, order: seq<FolderKey>) returns (present: bool,
        displaced: set<FolderKey>, flags: Flags)
      requires id in emails && (forall f :: f in order ==> RowKey(f, id) in rows)
      ensures present <==> target in order
      ensures displaced == (set f | f in order) - {target}
      ensures flags == CarriedFlags(View(), id, order)
    {
      present, displaced, flags := false, {}, HttpFlags(emails[id]);
      for i := 0 to |order|
        invariant forall f :: f in order[..i] ==> f in order
        invariant present <==> target in order[..i]
        invariant displaced == (set f | f in order[..i]) - {target}
        invariant flags == CarriedFlags(View(), id, order[..i])
      {
        assert order[i] in order && order[..i + 1] == order[..i] + [order[i]];
        if order[i] == target {
          present := true;
        } else {
          displaced := displaced + {order[i]};
        }
        if i == 0 {
          flags := rows[RowKey(order[i], id)].flags;
        }
      }
      assert order[..|order|] == order;
    }

    method RemoveMemberships(id: EmailId, fs: set<FolderKey>)
      modifies this`folders, this`rows
      ensures View() == Expel(old(View()), id, fs)
    {
      rows := map k | k in rows && !(k.email == id && k.folder in fs) :: rows[k];
      folders := map f | f in folders :: if f in fs then folders[f].(highestModSeq := folders[f].highestModSeq + 1)
          else folders[f];
      ExpelledRows(old(View()), View(), id, fs);
    }

    method RelocateFolderMembership(id: EmailId, name: string, order: seq<FolderKey>) returns (ok: bool)
      requires id in emails && (forall f :: f in order ==> RowKey(f, id) in rows)
      modifies this`folders, this`rows
      ensures ok == Relocate(old(View()), id, name, order).Committed?
      ensures ok ==> View() == Relocate(old(View()), id, name, order).tables
    {
      hide EnsureFolders, CarriedFlags, Expel;
      var mailbox := emails[id].mailbox;
      var target := FolderKey(mailbox, name);
      var present, displaced, flags := ScanMemberships(id, target, order);
      EnsureProtocolFolders(mailbox);
      if target !in folders {
        return false;
      }
      if displaced != {} {
        ExpelKeeps(View(), id, displaced);
        RemoveMemberships(id, displaced);
      }
      if present {
        return true;
      }
      var uid, modSeq := folders[target].nextUid, folders[target].highestModSeq + 1;
      ok := Create(RowKey(target, id), Membership(uid, flags, modSeq));
      if ok {
        folders := folders[target := Folder(uid + 1, modSeq)];
      }
    }

    method PurgeEmailRows(id: EmailId)
      modifies this
      ensures View() == PurgeEmail(old(View()), id)
    {
      var touched := set k | k in rows && k.email == id :: k.folder;
      ghost var gone := Memberships(View(), id);
      assert touched == set k | k in gone :: k.folder;
      rows := map k | k in rows && k.email != id :: rows[k];
      folders := map f | f in folders :: if f in touched
          then folders[f].(highestModSeq := folders[f].highestModSeq + 1) else folders[f];
      emails := emails - {id};
      assert rows == old(rows) - gone;
    }

    method PurgeEmails(ids: seq<EmailId>)
      modifies this
      ensures View() == Step(old(View()), PurgeEmailsOp(ids))
    {
      for i := 0 to |ids|
        invariant PurgeAll(old(View()), ids) == PurgeAll(View(), ids[i..])
      {
        assert ids[i..][1..] == ids[i + 1..];
        PurgeEmailRows(ids[i]);
      }
    }

    method PurgeProtocolMessages(mailbox: MailboxId, name: string, ids: set<EmailId>) returns (ok: bool,
        order: seq<EmailId>)
      modifies this
      ensures Enumerates(order, Members(old(View()), FolderKey(mailbox, name), ids))
      ensures ok == PurgeMessages(old(View()), mailbox, name, ids, order).Committed?
      ensures View() == Step(old(View()), PurgeOp(mailbox, name, ids, order))
    {
      order := FindMembers(FolderKey(mailbox, name), ids);
      ok := mailbox in mailboxes && FolderKey(mailbox, name) in folders;
      if ok {
        PurgeEmails(order);
      }
    }
  }

  lemma Regroup<T>(a: seq<T>, x: T, b: seq<T>)
    ensures a + ([x] + b) == a + [x] + b
  {
  }

  lemma StoreNothing(t: Tables, f: FolderKey, requested: Flags, mode: FlagMode, since: nat)
    requires f in t.folders
    ensures StoreAll(t, f, [], requested, mode, since) == t && StoreReport(t, f, [], requested, mode, since) == []
  {
  }

  lemma ExpelKeeps(t: Tables, id: EmailId, fs: set<FolderKey>)
    ensures Expel(t, id, fs).folders.Keys == t.folders.Keys
  {
  }

  lemma ExpelledRows(t: Tables, u: Tables, id: EmailId, fs: set<FolderKey>)
    requires u.rows == map k | k in t.rows && !(k.email == id && k.folder in fs) :: t.rows[k]
    requires u.folders == map f | f in t.folders :: if f in fs
             then t.folders[f].(highestModSeq := t.folders[f].highestModSeq + 1) else t.folders[f]
    requires u.mailboxes == t.mailboxes && u.emails == t.emails
    ensures u == Expel(t, id, fs)
  {
    var gone := set f | f in fs :: RowKey(f, id);
    forall k | k in t.rows
      ensures k in gone <==> k.email == id && k.folder in fs
    {
      assert k.email == id ==> k == RowKey(k.folder, id);
    }
    assert u.rows == t.rows - gone;
  }

  /** Saving the source, then the target, after the memberships moved. */
  lemma SavedRows(t: Tables, t1: Tables, u: Tables, source: FolderKey, target: FolderKey, ids: set<EmailId>,
      order: seq<EmailId>)
    requires source in t.folders && target in t.folders && Enumerates(order, Members(t, source, ids))
    requires source == target ==> order == []
    requires target in t1.folders && t1.folders == t.folders[target := t1.folders[target]]
    requires forall k :: k in t1.rows && k.folder == source && source != target ==> k in t.rows
    requires source == target ==> t1 == t
    requires u.rows == map k | k in t1.rows && !(k.folder == source && k.email in ids) :: t1.rows[k]
    requires u.folders == t.folders[source := t.folders[source].(highestModSeq := t.folders[source].highestModSeq
             + 1)][target := t1.folders[target]]
    requires u.emails == t1.emails && u.mailboxes == t1.mailboxes
    ensures u == if source == target then t1 else RemoveRows(t1, SourceRows(source, order), {source})
  {
    if source == target {
      assert forall k :: k in t.rows && k.folder == source && k.email in ids ==> k.email in Members(t, source, ids);
      assert u.rows == t1.rows && u.folders == t1.folders;
    } else {
      var v := RemoveRows(t1, SourceRows(source, order), {source});
      forall k | k in t1.rows
        ensures k in SourceRows(source, order) <==> k.folder == source && k.email in ids
      {
        if k.folder == source && k.email in ids {
          assert k == RowKey(source, k.email) && k.email in Members(t, source, ids);
        }
      }
      assert u.rows == v.rows && u.folders == v.folders;
    }
  }
}
