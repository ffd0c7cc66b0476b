/** What every transaction of the mail store keeps, and how any later state of
    a run relates to an earlier one: UID discipline (section 2.3.1.1 of
    RFC 3501) and mod-sequence synchronisation (section 3.1 of RFC 7162). */
module StoreRuns {
  import opened Text
  import opened MailTables
  import opened Transactions

  /** The row points at a folder and a message of one mailbox and stays below
      both counters of the folder. */
  ghost predicate RowOk(t: Tables, k: RowKey)
    requires k in t.rows
  {
    && k.folder in t.folders && k.email in t.emails && t.emails[k.email].mailbox == k.folder.mailbox
    && 1 <= t.rows[k].uid < t.folders[k.folder].nextUid && t.rows[k].modSeq <= t.folders[k.folder].highestModSeq
  }

  ghost predicate Apart(a: Membership, b: Membership) {
    a.uid != b.uid && a.modSeq != b.modSeq
  }

  ghost predicate Inv(t: Tables) {
    && (forall f :: f in t.folders ==> t.folders[f].nextUid >= 1 && t.folders[f].highestModSeq >= 1)
    && (forall k :: k in t.rows ==> RowOk(t, k))
    && (forall j, k :: j in t.rows && k in t.rows && j.folder == k.folder && j != k ==> Apart(t.rows[j], t.rows[k]))
  }

  ghost predicate FolderGrows(t: Tables, u: Tables, f: FolderKey)
    requires f in t.folders
  {
    && f in u.folders
    && t.folders[f].nextUid <= u.folders[f].nextUid
    && t.folders[f].highestModSeq <= u.folders[f].highestModSeq
  }

  /** A row whose UID or mod-sequence its folder had already spent at `t` was
      there at `t`, with that UID, and unchanged in the second case. */
  ghost predicate RowKnown(t: Tables, u: Tables, k: RowKey)
    requires k in u.rows
  {
    k.folder in t.folders ==>
      && (u.rows[k].uid < t.folders[k.folder].nextUid ==> k in t.rows && t.rows[k].uid == u.rows[k].uid)
      && (u.rows[k].modSeq <= t.folders[k.folder].highestModSeq ==> k in t.rows && t.rows[k] == u.rows[k])
  }

  /** A folder whose highest mod-sequence stood still kept the member. */
  ghost predicate MemberKept(t: Tables, u: Tables, k: RowKey) {
    (&& k.folder in t.folders && k.folder in u.folders
     && t.folders[k.folder].highestModSeq == u.folders[k.folder].highestModSeq)
    ==> k in u.rows
  }

  /** `u` is a later state than `t`. */
  ghost predicate Evolves(t: Tables, u: Tables) {
    && (forall f :: f in t.folders ==> FolderGrows(t, u, f))
    && (forall k :: k in u.rows ==> RowKnown(t, u, k))
    && (forall k :: k in t.rows ==> MemberKept(t, u, k))
  }

  ghost predicate Advance(t: Tables, u: Tables) {
    Inv(u) && Evolves(t, u)
  }

  lemma EvolvesTransitive(t: Tables, u: Tables, v: Tables)
    requires Evolves(t, u) && Evolves(u, v)
    ensures Evolves(t, v)
  {
  }

  lemma Still(t: Tables)
    requires Inv(t)
    ensures Advance(t, t)
  {
  }

  lemma RowFacts(t: Tables, k: RowKey)
    requires Inv(t) && k in t.rows
    ensures k.folder in t.folders && k.email in t.emails && t.emails[k.email].mailbox == k.folder.mailbox
  {
  }

  // ---- the row-level effects ----

  lemma EnsureKeepsFolders(t: Tables, mailbox: MailboxId)
    ensures var u := EnsureFolders(t, mailbox);
            && u.rows == t.rows && u.emails == t.emails
            && (forall f :: f in t.folders ==> f in u.folders && u.folders[f] == t.folders[f])
            && (forall f :: f in u.folders && f !in t.folders ==> u.folders[f] == Folder(1, 1))
            && forall name :: name in DEFAULT_FOLDERS ==> FolderKey(mailbox, name) in u.folders
  {
  }

  lemma EnsureAdvances(t: Tables, mailbox: MailboxId)
    requires Inv(t)
    ensures Advance(t, EnsureFolders(t, mailbox))
    ensures forall name :: name in DEFAULT_FOLDERS ==> FolderKey(mailbox, name) in EnsureFolders(t, mailbox).folders
  {
    EnsureKeepsFolders(t, mailbox);
    hide EnsureFolders, Apart;
    var u := EnsureFolders(t, mailbox);
    forall k | k in u.rows ensures RowOk(u, k) && RowKnown(t, u, k) {
      assert RowOk(t, k);
    }
  }

  lemma AddRowKeepsInv(t: Tables, f: FolderKey, id: EmailId, flags: Flags)
    requires Inv(t) && f in t.folders && RowKey(f, id) !in t.rows
    requires id in t.emails && t.emails[id].mailbox == f.mailbox
    ensures Inv(AddRow(t, f, id, flags))
  {
  }

  lemma AddRowEvolves(t: Tables, f: FolderKey, id: EmailId, flags: Flags)
    requires f in t.folders && RowKey(f, id) !in t.rows
    ensures Evolves(t, AddRow(t, f, id, flags))
  {
  }

  lemma AddRowAdvances(t: Tables, f: FolderKey, id: EmailId, flags: Flags)
    requires Inv(t) && f in t.folders && RowKey(f, id) !in t.rows
    requires id in t.emails && t.emails[id].mailbox == f.mailbox
    ensures Advance(t, AddRow(t, f, id, flags))
  {
    AddRowKeepsInv(t, f, id, flags);
    AddRowEvolves(t, f, id, flags);
    hide Inv, Evolves, AddRow;
  }

  lemma RemoveRowsKeepsInv(t: Tables, gone: set<RowKey>, bumped: set<FolderKey>)
    requires Inv(t)
    ensures Inv(RemoveRows(t, gone, bumped))
  {
  }

  lemma RemoveRowsEvolves(t: Tables, gone: set<RowKey>, bumped: set<FolderKey>)
    requires forall k :: k in gone ==> k.folder in bumped
    ensures Evolves(t, RemoveRows(t, gone, bumped))
  {
  }

  lemma RemoveRowsAdvances(t: Tables, gone: set<RowKey>, bumped: set<FolderKey>)
    requires Inv(t) && (forall k :: k in gone ==> k.folder in bumped)
    ensures Advance(t, RemoveRows(t, gone, bumped))
  {
    RemoveRowsKeepsInv(t, gone, bumped);
    RemoveRowsEvolves(t, gone, bumped);
    hide Inv, Evolves, RemoveRows;
  }

  lemma ReflagKeepsInv(t: Tables, k: RowKey, flags: Flags)
    requires Inv(t) && k in t.rows
    ensures k.folder in t.folders && Inv(Reflag(t, k, flags))
  {
    RowFacts(t, k);
    var u := Reflag(t, k, flags);
    forall j | j in u.rows ensures RowOk(u, j) {
      assert RowOk(t, j);
    }
    forall i, j | i in u.rows && j in u.rows && i.folder == j.folder && i != j
      ensures Apart(u.rows[i], u.rows[j])
    {
      assert RowOk(t, i) && RowOk(t, j) && Apart(t.rows[i], t.rows[j]);
    }
  }

  lemma ReflagEvolves(t: Tables, k: RowKey, flags: Flags)
    requires k in t.rows && k.folder in t.folders
    ensures Evolves(t, Reflag(t, k, flags))
  {
  }

  lemma ReflagAdvances(t: Tables, k: RowKey, flags: Flags)
    requires Inv(t) && k in t.rows
    ensures k.folder in t.folders && Advance(t, Reflag(t, k, flags))
  {
    ReflagKeepsInv(t, k, flags);
    ReflagEvolves(t, k, flags);
    hide Inv, Evolves, Reflag;
  }

  /** Changing only message rows, without moving one to another mailbox. */
  lemma EmailsAdvance(t: Tables, u: Tables)
    requires Inv(t) && u.folders == t.folders && u.rows == t.rows
    requires forall id :: id in t.emails ==> id in u.emails && u.emails[id].mailbox == t.emails[id].mailbox
    ensures Advance(t, u)
  {
  }

  /** Deleting a message row that no membership refers to. */
  lemma DropEmailAdvances(t: Tables, id: EmailId)
    requires Inv(t) && Memberships(t, id) == {}
    ensures Advance(t, t.(emails := t.emails - {id}))
  {
    assert forall k :: k in t.rows ==> (k.email == id ==> k in Memberships(t, id));
  }

  /** Under the invariant the unique (folder, uid) index never objects. */
  lemma ClashIsKey(t: Tables, f: FolderKey, id: EmailId)
    requires Inv(t) && f in t.folders
    ensures Clash(t, f, id) <==> RowKey(f, id) in t.rows
  {
  }

  // ---- the transactions ----

  lemma AddMembershipAdvances(t: Tables, mailbox: MailboxId, name: string, id: EmailId, flags: Flags)
    requires Inv(t) && id in t.emails && t.emails[id].mailbox == mailbox
    requires AddMembership(t, mailbox, name, id, flags).Committed?
    ensures Advance(t, AddMembership(t, mailbox, name, id, flags).tables)
  {
    EnsureAdvances(t, mailbox);
    var t1 := EnsureFolders(t, mailbox);
    AddRowAdvances(t1, FolderKey(mailbox, name), id, flags);
    EvolvesTransitive(t, t1, AddRow(t1, FolderKey(mailbox, name), id, flags));
  }

  /** Insert (or mark) the message row, then its membership. */
  lemma StoredMessageAdvances(t: Tables, id: EmailId, email: Email, name: string, flags: Flags)
    requires Inv(t) && (id in t.emails ==> t.emails[id].mailbox == email.mailbox)
    ensures Advance(t, t.(emails := t.emails[id := email]))
    ensures var o := AddMembership(t.(emails := t.emails[id := email]), email.mailbox, name, id, flags);
            o.Committed? ==> Advance(t, o.tables)
  {
    hide Inv, Evolves;
    var t1 := t.(emails := t.emails[id := email]);
    EmailsAdvance(t, t1);
    var o := AddMembership(t1, email.mailbox, name, id, flags);
    if o.Committed? {
      AddMembershipAdvances(t1, email.mailbox, name, id, flags);
      EvolvesTransitive(t, t1, o.tables);
    }
  }

  lemma {:induction false} AddAllAdvances(t: Tables, source: FolderKey, target: FolderKey, order: seq<EmailId>)
    requires Inv(t) && source.mailbox == target.mailbox && target in t.folders
    requires forall id :: id in order ==> RowKey(source, id) in t.rows
    requires AddAll(t, source, target, order).Committed?
    ensures Advance(t, AddAll(t, source, target, order).tables)
    ensures AddAll(t, source, target, order).tables.emails == t.emails
    decreases |order|
  {
    hide Inv, Evolves;
    Still(t);
    if order != [] {
      RowFacts(t, RowKey(source, order[0]));
      var t1 := AddRow(t, target, order[0], t.rows[RowKey(source, order[0])].flags);
      AddRowAdvances(t, target, order[0], t.rows[RowKey(source, order[0])].flags);
      AddAllAdvances(t1, source, target, order[1..]);
      EvolvesTransitive(t, t1, AddAll(t, source, target, order).tables);
    }
  }

  lemma MoveAdvances(t: Tables, mailbox: MailboxId, from: string, to: string, ids: set<EmailId>, order: seq<EmailId>)
    requires Inv(t) && Enumerates(order, Members(t, FolderKey(mailbox, from), ids))
    requires MoveMessages(t, mailbox, from, to, ids, order).Committed?
    ensures Advance(t, MoveMessages(t, mailbox, from, to, ids, order).tables)
  {
    hide Inv, Evolves;
    var source, target := FolderKey(mailbox, from), FolderKey(mailbox, to);
    AddAllAdvances(t, source, target, order);
    var t1 := AddAll(t, source, target, order).tables;
    RemoveRowsAdvances(t1, SourceRows(source, order), {source});
    var t2 := if source == target then t1 else RemoveRows(t1, SourceRows(source, order), {source});
    EvolvesTransitive(t, t1, t2);
    var u := MoveMessages(t, mailbox, from, to, ids, order).tables;
    EmailsAdvance(t2, u);
    EvolvesTransitive(t, t2, u);
  }

  lemma {:induction false} StoreAllAdvances(t: Tables, f: FolderKey, order: seq<EmailId>, requested: Flags,
      mode: FlagMode, since: nat)
    requires Inv(t) && f in t.folders
    requires forall id :: id in order ==> RowKey(f, id) in t.rows
    ensures Advance(t, StoreAll(t, f, order, requested, mode, since))
    decreases |order|
  {
    hide Inv, Evolves;
    Still(t);
    if order != [] {
      var k := RowKey(f, order[0]);
      var t1 := if Skipped(t.rows[k], since) then t else Reflag(t, k, MergedFlags(t.rows[k].flags, requested, mode));
      ReflagAdvances(t, k, MergedFlags(t.rows[k].flags, requested, mode));
      StoreAllAdvances(t1, f, order[1..], requested, mode, since);
      EvolvesTransitive(t, t1, StoreAll(t, f, order, requested, mode, since));
    }
  }

  lemma RelocateAdvances(t: Tables, id: EmailId, name: string, order: seq<FolderKey>)
    requires Inv(t) && id in t.emails
    requires forall f :: f in order ==> RowKey(f, id) in t.rows
    requires Relocate(t, id, name, order).Committed?
    ensures Advance(t, Relocate(t, id, name, order).tables)
    ensures Relocate(t, id, name, order).tables.emails == t.emails
  {
    hide Inv, Evolves;
    var mailbox := t.emails[id].mailbox;
    var target := FolderKey(mailbox, name);
    EnsureAdvances(t, mailbox);
    var t1 := EnsureFolders(t, mailbox);
    var displaced := (set f | f in order) - {target};
    RemoveRowsAdvances(t1, (set f | f in displaced :: RowKey(f, id)), displaced);
    var t2 := if displaced == {} then t1 else Expel(t1, id, displaced);
    if displaced != {} {
      EvolvesTransitive(t, t1, t2);
    }
    if target !in order {
      var t3 := AddRow(t2, target, id, CarriedFlags(t, id, order));
      AddRowAdvances(t2, target, id, CarriedFlags(t, id, order));
      EvolvesTransitive(t, t2, t3);
    }
  }

  lemma MoveEmailAdvances(t: Tables, account: AccountId, id: EmailId, folder: string, order: seq<FolderKey>)
    requires Inv(t) && id in t.emails && Enumerates(order, Holding(t, t.emails[id].mailbox, id))
    requires MoveEmail(t, account, id, folder, order).Committed?
    ensures Advance(t, MoveEmail(t, account, id, folder, order).tables)
  {
    hide Inv, Evolves;
    var name := ProtocolFolderName(Lower(Trim(folder)));
    RelocateAdvances(t, id, name, order);
    var t1 := Relocate(t, id, name, order).tables;
    var u := MoveEmail(t, account, id, folder, order).tables;
    EmailsAdvance(t1, u);
    EvolvesTransitive(t, t1, u);
  }

  lemma PurgeEmailAdvances(t: Tables, id: EmailId)
    requires Inv(t)
    ensures Advance(t, PurgeEmail(t, id))
  {
    hide Inv, Evolves;
    var gone := Memberships(t, id);
    var bumped := set k | k in gone :: k.folder;
    RemoveRowsAdvances(t, gone, bumped);
    var t1 := RemoveRows(t, gone, bumped);
    DropEmailAdvances(t1, id);
    EvolvesTransitive(t, t1, PurgeEmail(t, id));
  }

  lemma {:induction false} PurgeAllAdvances(t: Tables, ids: seq<EmailId>)
    requires Inv(t)
    ensures Advance(t, PurgeAll(t, ids))
    decreases |ids|
  {
    hide Inv, Evolves;
    Still(t);
    if ids != [] {
      PurgeEmailAdvances(t, ids[0]);
      PurgeAllAdvances(PurgeEmail(t, ids[0]), ids[1..]);
      EvolvesTransitive(t, PurgeEmail(t, ids[0]), PurgeAll(t, ids));
    }
  }

  /** Every transaction of the store, committed or rolled back, keeps the
      invariant and moves the tables forward. */
  lemma StepAdvances(t: Tables, op: Op)
    requires Inv(t) && Enabled(t, op)
    ensures Advance(t, Step(t, op))
  {
    hide Inv, Evolves;
    Still(t);
    if Apply(t, op).Committed? {
      match op
      case CreateMailbox(mailbox, account) =>
        var t1 := t.(mailboxes := t.mailboxes[mailbox := account]);
        EmailsAdvance(t, t1);
        EnsureAdvances(t1, mailbox);
        EvolvesTransitive(t, t1, EnsureFolders(t1, mailbox));
      case DeliverOp(id, email) =>
        StoredMessageAdvances(t, id, email.(sourced := true), ProtocolFolderName(email.folder), {});
      case AppendOp(id, mailbox, name, flags) =>
        StoredMessageAdvances(t, id, Appended(t, mailbox, Trim(name), flags), Trim(name), StoredFlags(flags));
      case CopyEmailOp(source, id, mailbox, name) =>
        StoredMessageAdvances(t, id, Copied(t.emails[source], mailbox, name), name, {});
      case BackfillOp(id) =>
        StoredMessageAdvances(t, id, t.emails[id].(sourced := true), ProtocolFolderName(t.emails[id].folder), {});
      case MoveOp(mailbox, from, to, ids, order) => MoveAdvances(t, mailbox, from, to, ids, order);
      case CopyOp(mailbox, from, to, ids, order) => AddAllAdvances(t, FolderKey(mailbox, from),
          FolderKey(mailbox, to), order);
      case StoreOp(mailbox, name, ids, requested, mode, since, order) =>
        StoreAllAdvances(t, FolderKey(mailbox, name), order, requested, mode, since);
      case MoveEmailOp(account, id, folder, held) => MoveEmailAdvances(t, account, id, folder, held);
      case PurgeOp(mailbox, name, ids, order) => PurgeAllAdvances(t, order);
      case PurgeEmailsOp(purged) => PurgeAllAdvances(t, purged);
      case MarkOp(id, read, starred) => EmailsAdvance(t, Step(t, op));
    }
  }

  /** A store holding only messages from before protocol support. */
  ghost predicate Initial(t: Tables) {
    && t.folders == map[] && t.rows == map[]
    && forall id :: id in t.emails ==> !t.emails[id].sourced
  }

  lemma {:induction false} RunAdvances(t: Tables, ops: seq<Op>)
    requires Inv(t) && Runnable(t, ops)
    ensures Advance(t, Run(t, ops))
    decreases |ops|
  {
    hide Inv, Evolves;
    Still(t);
    if ops != [] {
      StepAdvances(t, ops[0]);
      RunAdvances(Step(t, ops[0]), ops[1..]);
      EvolvesTransitive(t, Step(t, ops[0]), Run(t, ops));
    }
  }

  /** A state some run from an initial store reaches. */
  ghost predicate Reachable(t: Tables) {
    exists start: Tables, ops: seq<Op> :: Initial(start) && Runnable(start, ops) && Run(start, ops) == t
  }

  lemma ReachableInv(t: Tables)
    requires Reachable(t)
    ensures Inv(t)
  {
    hide Runnable, Run, Evolves;
    var start: Tables, ops: seq<Op> :| Initial(start) && Runnable(start, ops) && Run(start, ops) == t;
    RunAdvances(start, ops);
  }

  // ---- UID discipline ----

  /** Over a whole run no (folder, uid) pair belongs to two messages, UIDs stay
      below NextUID, mod-sequences at or below the highest, both distinct. */
  lemma UidsNeverReused(t: Tables, ops: seq<Op>, j: RowKey, k: RowKey)
    requires Reachable(t) && Runnable(t, ops)
    requires j in t.rows && k in Run(t, ops).rows && j.folder == k.folder
    requires t.rows[j].uid == Run(t, ops).rows[k].uid
    ensures j == k
  {
    ReachableInv(t);
    RunAdvances(t, ops);
  }

  lemma CountersBoundRows(t: Tables, j: RowKey, k: RowKey)
    requires Reachable(t) && j in t.rows && k in t.rows && j.folder == k.folder
    ensures j.folder in t.folders
    ensures 1 <= t.rows[j].uid < t.folders[j.folder].nextUid && t.rows[j].modSeq <= t.folders[j.folder].highestModSeq
    ensures j != k ==> t.rows[j].uid != t.rows[k].uid && t.rows[j].modSeq != t.rows[k].modSeq
  {
    ReachableInv(t);
  }

  /** A membership that appears between two points of a run has a UID above
      every UID its folder held at or before the first of them. */
  lemma NewUidsExceedEarlier(t: Tables, before: seq<Op>, after: seq<Op>, j: RowKey, k: RowKey)
    requires Reachable(t) && Runnable(t, before) && Runnable(Run(t, before), after)
    requires j in t.rows && k.folder == j.folder
    requires k !in Run(t, before).rows && k in Run(Run(t, before), after).rows
    ensures Run(Run(t, before), after).rows[k].uid > t.rows[j].uid
  {
    ReachableInv(t);
    RunAdvances(t, before);
    RunAdvances(Run(t, before), after);
  }

  // ---- mod-sequence synchronisation ----

  datatype Entry = Entry(email: EmailId, flags: Flags)

  ghost function InFolder(t: Tables, f: FolderKey, since: int): (ks: set<RowKey>) {
    set k | k in t.rows && k.folder == f && t.rows[k].modSeq > since
  }

  ghost function UidsSince(t: Tables, f: FolderKey, since: int): set<nat> {
    set k | k in InFolder(t, f, since) :: t.rows[k].uid
  }

  ghost function EntryAt(t: Tables, f: FolderKey, since: int, uid: nat): Entry
    requires uid in UidsSince(t, f, since)
  {
    var k :| k in InFolder(t, f, since) && t.rows[k].uid == uid;
    Entry(k.email, t.rows[k].flags)
  }

  /** What a client sees in the folder, by UID: the rows above a mod-sequence. */
  ghost function ChangedSince(t: Tables, f: FolderKey, since: int): map<nat, Entry> {
    map uid | uid in UidsSince(t, f, since) :: EntryAt(t, f, since, uid)
  }

  ghost function Snapshot(t: Tables, f: FolderKey): map<nat, Entry> {
    ChangedSince(t, f, -1)
  }

  /** A client's resynchronisation: forget the UIDs that are gone, overlay the
      rows the server reports as changed. */
  ghost function Resync(client: map<nat, Entry>, live: set<nat>, changed: map<nat, Entry>): map<nat, Entry> {
    (map uid | uid in client && uid in live :: client[uid]) + changed
  }

  /** A row at the later point whose mod-sequence was already reached at the
      earlier one is unchanged since. */
  lemma OldModSeqMeansUnchanged(t: Tables, ops: seq<Op>, k: RowKey)
    requires Reachable(t) && Runnable(t, ops)
    requires k.folder in t.folders && k in Run(t, ops).rows
    requires Run(t, ops).rows[k].modSeq <= t.folders[k.folder].highestModSeq
    ensures k in t.rows && t.rows[k] == Run(t, ops).rows[k]
  {
    ReachableInv(t);
    RunAdvances(t, ops);
  }

  /** An entry of the later folder is either reported as changed or was there. */
  lemma EntryKnown(t: Tables, u: Tables, k: RowKey)
    requires Inv(t) && Advance(t, u) && k in u.rows && k.folder in t.folders
    ensures u.rows[k].modSeq > t.folders[k.folder].highestModSeq || (k in t.rows && t.rows[k] == u.rows[k])
  {
    assert RowKnown(t, u, k);
  }

  lemma SameUidSameRow(u: Tables, j: RowKey, k: RowKey)
    requires Inv(u) && j in u.rows && k in u.rows && j.folder == k.folder && u.rows[j].uid == u.rows[k].uid
    ensures j == k
  {
    assert j != k ==> Apart(u.rows[j], u.rows[k]);
  }

  lemma ChangedEntry(u: Tables, f: FolderKey, since: int, k: RowKey)
    requires Inv(u) && k in InFolder(u, f, since)
    ensures u.rows[k].uid in ChangedSince(u, f, since)
    ensures ChangedSince(u, f, since)[u.rows[k].uid] == Entry(k.email, u.rows[k].flags)
  {
    hide Inv;
    var uid := u.rows[k].uid;
    assert uid in UidsSince(u, f, since);
    var j :| j in InFolder(u, f, since) && u.rows[j].uid == uid
        && EntryAt(u, f, since, uid) == Entry(j.email, u.rows[j].flags);
    SameUidSameRow(u, j, k);
  }

  lemma EntryHolder(u: Tables, f: FolderKey, since: int, uid: nat) returns (k: RowKey)
    requires uid in ChangedSince(u, f, since)
    ensures k in InFolder(u, f, since) && u.rows[k].uid == uid
  {
    k :| k in InFolder(u, f, since) && u.rows[k].uid == uid;
  }

  lemma ResyncAcross(t: Tables, u: Tables, f: FolderKey)
    requires Inv(t) && Advance(t, u) && f in t.folders
    ensures Resync(Snapshot(t, f), Snapshot(u, f).Keys, ChangedSince(u, f, t.folders[f].highestModSeq)) ==
            Snapshot(u, f)
  {
    hide Inv, Evolves, ChangedSince;
    var since := t.folders[f].highestModSeq;
    var changed := ChangedSince(u, f, since);
    var synced := Resync(Snapshot(t, f), Snapshot(u, f).Keys, changed);
    forall uid | uid in Snapshot(u, f)
      ensures uid in synced && synced[uid] == Snapshot(u, f)[uid]
    {
      var k := EntryHolder(u, f, -1, uid);
      ChangedEntry(u, f, -1, k);
      EntryKnown(t, u, k);
      if u.rows[k].modSeq > since {
        ChangedEntry(u, f, since, k);
      } else {
        ChangedEntry(t, f, -1, k);
        if uid in changed {
          var j := EntryHolder(u, f, since, uid);
          SameUidSameRow(u, j, k);
          assert false;
        }
      }
    }
    forall uid | uid in synced
      ensures uid in Snapshot(u, f)
    {
      if uid in changed {
        var k := EntryHolder(u, f, since, uid);
        assert k in InFolder(u, f, -1);
        ChangedEntry(u, f, -1, k);
      }
    }
  }

  /** Incremental synchronisation is sound between any two points of a run. */
  lemma SyncSound(t: Tables, ops: seq<Op>, f: FolderKey)
    requires Reachable(t) && Runnable(t, ops) && f in t.folders
    ensures Resync(Snapshot(t, f), Snapshot(Run(t, ops), f).Keys,
            ChangedSince(Run(t, ops), f, t.folders[f].highestModSeq))
            == Snapshot(Run(t, ops), f)
  {
    ReachableInv(t);
    RunAdvances(t, ops);
    ResyncAcross(t, Run(t, ops), f);
  }
}
