/** The HTTP folder column and the protocol memberships tell one story. */
module FolderAgreement {
  import opened Text
  import opened MailTables
  import opened Transactions
  import opened StoreRuns
  import opened StoreEffects

  function Home(email: Email): FolderKey {
    FolderKey(email.mailbox, ProtocolFolderName(email.folder))
  }

  /** Each message has at most one membership, in the protocol folder of its
      HTTP folder. Only DMARC intake, and messages older than protocol
      support, may have none. */
  ghost predicate Agree(t: Tables) {
    && (forall k :: k in t.rows ==> k.email in t.emails && k.folder == Home(t.emails[k.email]))
    && (forall id :: id in t.emails && t.emails[id].sourced && !t.emails[id].dmarcIntake ==>
       RowKey(Home(t.emails[id]), id) in t.rows)
  }

  /** No IMAP COPY, and only the six default folders are named. */
  predicate Ordinary(op: Op) {
    match op
    case CopyOp(_, _, _, _, _) => false
    case AppendOp(_, _, name, _) => Trim(name) in DEFAULT_FOLDERS
    case CopyEmailOp(_, _, _, name) => name in DEFAULT_FOLDERS
    case MoveOp(_, from, to, _, _) => from in DEFAULT_FOLDERS && to in DEFAULT_FOLDERS
    case _ => true
  }

  /** One row more, for a message whose row is new or was not yet sourced. */
  lemma HomeRowAgrees(t: Tables, id: EmailId, email: Email, u: Tables)
    requires Agree(t) && (id in t.emails ==> t.emails[id] == email.(sourced := false))
    requires u.emails == t.emails[id := email]
    requires forall k :: k in u.rows <==> k in t.rows || k == RowKey(Home(email), id)
    ensures Agree(u)
  {
    hide ProtocolFolderName;
    forall k | k in u.rows ensures k.email in u.emails && k.folder == Home(u.emails[k.email]) {
      assert k in t.rows ==> k.folder == Home(t.emails[k.email]);
    }
  }

  /** The row of a message is written together with its home membership. */
  lemma StoredMessageAgrees(t: Tables, id: EmailId, email: Email, name: string, flags: Flags)
    requires Agree(t) && ProtocolFolderName(email.folder) == name
    requires id in t.emails ==> t.emails[id] == email.(sourced := false)
    ensures var o := AddMembership(t.(emails := t.emails[id := email]), email.mailbox, name, id, flags);
            o.Committed? ==> Agree(o.tables)
  {
    hide ProtocolFolderName, EnsureFolders, Clash, Agree;
    var t1 := t.(emails := t.emails[id := email]);
    EnsureKeepsRows(t1, email.mailbox);
    var o := AddMembership(t1, email.mailbox, name, id, flags);
    if o.Committed? {
      HomeRowAgrees(t, id, email, o.tables);
    }
  }

  lemma MoveAgrees(t: Tables, mailbox: MailboxId, from: string, to: string, ids: set<EmailId>, order: seq<EmailId>)
    requires Inv(t) && Agree(t) && Enumerates(order, Members(t, FolderKey(mailbox, from), ids))
    requires from in DEFAULT_FOLDERS && to in DEFAULT_FOLDERS
    requires MoveMessages(t, mailbox, from, to, ids, order).Committed?
    ensures Agree(MoveMessages(t, mailbox, from, to, ids, order).tables)
  {
    hide Inv, MoveMessages, ProtocolFolderName, HttpFolderForProtocolName, Moved;
    MoveCommits(t, mailbox, from, to, ids, order);
    if from != to {
      var source, target := FolderKey(mailbox, from), FolderKey(mailbox, to);
      MoveEffect(t, mailbox, from, to, ids, order);
      FolderNamesRoundTrip(to, "inbox");
      MovedAgrees(t, MoveMessages(t, mailbox, from, to, ids, order).tables, source, target, order);
    }
  }

  lemma MovedRowsAgree(t: Tables, u: Tables, source: FolderKey, target: FolderKey, order: seq<EmailId>, k: RowKey)
    requires Agree(t) && source in t.folders && target in t.folders && source.mailbox == target.mailbox
             && source != target
    requires forall id :: id in order ==> RowKey(source, id) in t.rows
    requires Moved(t, u, source, target, order)
    requires HttpFolderForProtocolName(target.name).Some?
    requires ProtocolFolderName(HttpFolderForProtocolName(target.name).value) == target.name
    ensures k in u.rows ==> k.email in u.emails && k.folder == Home(u.emails[k.email])
    ensures (&& k.email in u.emails && u.emails[k.email].sourced && !u.emails[k.email].dmarcIntake
             && k.folder == Home(u.emails[k.email]))
            ==> k in u.rows
  {
    hide ProtocolFolderName, HttpFolderForProtocolName;
    if k.email in order {
      var i :| 0 <= i < |order| && order[i] == k.email;
      assert RowKey(source, order[i]) in t.rows && RowKey(target, order[i]) in u.rows;
    }
    assert k in SourceRows(source, order) + SourceRows(target, order) <==>
        k.email in order && (k.folder == source || k.folder == target);
  }

  lemma MovedAgrees(t: Tables, u: Tables, source: FolderKey, target: FolderKey, order: seq<EmailId>)
    requires Agree(t) && source in t.folders && target in t.folders && source.mailbox == target.mailbox
             && source != target
    requires forall id :: id in order ==> RowKey(source, id) in t.rows
    requires Moved(t, u, source, target, order)
    requires HttpFolderForProtocolName(target.name).Some?
    requires ProtocolFolderName(HttpFolderForProtocolName(target.name).value) == target.name
    ensures Agree(u)
  {
    hide ProtocolFolderName, HttpFolderForProtocolName, Moved;
    forall k ensures k in u.rows ==> k.email in u.emails && k.folder == Home(u.emails[k.email]) {
      MovedRowsAgree(t, u, source, target, order, k);
    }
    forall id | id in u.emails {
      MovedRowsAgree(t, u, source, target, order, RowKey(Home(u.emails[id]), id));
    }
  }

  lemma StoreAgrees(t: Tables, f: FolderKey, order: seq<EmailId>, requested: Flags, mode: FlagMode, since: nat)
    requires Agree(t) && f in t.folders
    requires forall id :: id in order ==> RowKey(f, id) in t.rows
    requires forall i, j :: 0 <= i < j < |order| ==> order[i] != order[j]
    ensures Agree(StoreAll(t, f, order, requested, mode, since))
  {
    hide ProtocolFolderName, RowFlagged, StoreAll;
    StoreEffect(t, f, order, requested, mode, since);
  }

  lemma MoveEmailAgrees(t: Tables, account: AccountId, id: EmailId, folder: string, order: seq<FolderKey>)
    requires Inv(t) && Agree(t) && id in t.emails && Enumerates(order, Holding(t, t.emails[id].mailbox, id))
    requires MoveEmail(t, account, id, folder, order).Committed?
    ensures Agree(MoveEmail(t, account, id, folder, order).tables)
  {
    hide Inv, MoveEmail, ProtocolFolderName, Lower, Trim;
    MoveEmailRepairs(t, account, id, folder, order);
    var u := MoveEmail(t, account, id, folder, order).tables;
    forall k: RowKey | k.email != id
      ensures k in u.rows <==> k in t.rows
    {
      assert k !in Memberships(t, id);
    }
  }

  lemma PurgeAgrees(t: Tables, ids: seq<EmailId>)
    requires Agree(t)
    ensures Agree(PurgeAll(t, ids))
  {
    hide ProtocolFolderName, LosesRow;
    PurgeEffect(t, ids);
  }

  lemma StepAgrees(t: Tables, op: Op)
    requires Inv(t) && Agree(t) && Enabled(t, op) && Ordinary(op)
    ensures Agree(Step(t, op))
  {
    if Apply(t, op).Committed? {
      hide Inv, Agree, ProtocolFolderName, Lower, Trim, HasSystemFlag;
      match op
      case CreateMailbox(mailbox, account) => MarkAgrees(t, op);
      case DeliverOp(id, email) =>
        if email.dmarcIntake { MarkAgrees(t, op); }
        else { StoredMessageAgrees(t, id, email.(sourced := true), ProtocolFolderName(email.folder), {}); }
      case AppendOp(id, mailbox, name, flags) =>
        FolderNamesRoundTrip(Trim(name), "inbox");
        StoredMessageAgrees(t, id, Appended(t, mailbox, Trim(name), flags), Trim(name), StoredFlags(flags));
      case CopyEmailOp(source, id, mailbox, name) =>
        FolderNamesRoundTrip(name, "inbox");
        StoredMessageAgrees(t, id, Copied(t.emails[source], mailbox, name), name, {});
      case BackfillOp(id) =>
        StoredMessageAgrees(t, id, t.emails[id].(sourced := true), ProtocolFolderName(t.emails[id].folder), {});
      case MoveOp(mailbox, from, to, ids, order) => MoveAgrees(t, mailbox, from, to, ids, order);
      case StoreOp(mailbox, name, ids, requested, mode, since, order) => StoreAgrees(t, FolderKey(mailbox, name), order,
          requested, mode, since);
      case MoveEmailOp(account, id, folder, held) => MoveEmailAgrees(t, account, id, folder, held);
      case PurgeOp(mailbox, name, ids, order) => PurgeAgrees(t, order);
      case PurgeEmailsOp(purged) => PurgeAgrees(t, purged);
      case MarkOp(id, read, starred) => MarkAgrees(t, op);
    }
  }

  /** The steps that write no membership. */
  lemma MarkAgrees(t: Tables, op: Op)
    requires Agree(t) && Enabled(t, op)
    requires op.MarkOp? || op.CreateMailbox? || (op.DeliverOp? && op.email.dmarcIntake)
    ensures Agree(Step(t, op))
  {
    hide ProtocolFolderName, EnsureFolders;
    if op.CreateMailbox? {
      EnsureKeepsRows(t.(mailboxes := t.mailboxes[op.mailbox := op.account]), op.mailbox);
    }
  }

  lemma {:induction false} RunAgrees(t: Tables, ops: seq<Op>)
    requires Inv(t) && Agree(t) && Runnable(t, ops) && (forall op :: op in ops ==> Ordinary(op))
    ensures Agree(Run(t, ops))
    decreases |ops|
  {
    hide Inv, Evolves, Agree, Ordinary;
    if ops != [] {
      assert ops[0] in ops;
      StepAdvances(t, ops[0]);
      StepAgrees(t, ops[0]);
      RunAgrees(Step(t, ops[0]), ops[1..]);
    }
  }

  /** The two folder models agree in every state an ordinary run reaches. */
  lemma ModelsAgree(start: Tables, ops: seq<Op>)
    requires Initial(start) && Runnable(start, ops) && (forall op :: op in ops ==> Ordinary(op))
    ensures Agree(Run(start, ops))
  {
    hide Ordinary, Runnable, Run, ProtocolFolderName;
    RunAgrees(start, ops);
  }

  /** IMAP COPY is what the hypothesis excludes: after a committed copy that found
      a message that message has two memberships, so the models no longer
      agree. A copy that found none changes nothing. */
  lemma CopyBreaksAgreement(t: Tables, mailbox: MailboxId, from: string, to: string, ids: set<EmailId>,
      order: seq<EmailId>)
    requires Inv(t) && Enumerates(order, Members(t, FolderKey(mailbox, from), ids))
    requires CopyMessages(t, mailbox, from, to, ids, order).Committed?
    ensures order != [] ==> !Agree(CopyMessages(t, mailbox, from, to, ids, order).tables)
    ensures order == [] ==> CopyMessages(t, mailbox, from, to, ids, order).tables == t
  {
    hide Inv, ProtocolFolderName;
    if order != [] {
      var source, target := FolderKey(mailbox, from), FolderKey(mailbox, to);
      AddAllEffect(t, source, target, order);
      var u := CopyMessages(t, mailbox, from, to, ids, order).tables;
      assert order[0] in order && RowKey(source, order[0]) in u.rows && RowKey(target, order[0]) in u.rows;
    }
  }
}
