/** What each transaction of the mail store does to the tables, as a function
    of the tables and its arguments. Where a query returns rows in no stated
    order, `order` is the enumeration the database chose. */
module Transactions {
  import opened FlagNames
  import opened Text
  import opened MailTables
  import opened Wrappers

  // ---- flags ----

  datatype FlagMode = Add | Remove | Replace

  function MergedFlags(current: Flags, requested: Flags, mode: FlagMode): Flags {
    match mode
    case Replace => requested
    case Add => current + requested
    case Remove => current - requested
  }

  function StoredFlags(flags: seq<string>): Flags {
    set flag | flag in StoredNames(flags)
  }

  predicate HasSystemFlag(flags: seq<string>, flag: string) {
    exists i :: 0 <= i < |flags| && Lower(flags[i]) == Lower(flag)
  }

  /** The flags the HTTP state of a message implies. */
  function HttpFlags(email: Email): Flags {
    (if email.read then {"\\Seen"} else {}) + (if email.starred then {"\\Flagged"} else {})
        + (if email.draft then {"\\Draft"} else {})
  }

  // ---- adding messages ----

  /** appendFolderMembershipTx and addFolderMembershipTx. */
  function AddMembership(t: Tables, mailbox: MailboxId, name: string, id: EmailId, flags: Flags): Outcome {
    var t1 := EnsureFolders(t, mailbox);
    var f := FolderKey(mailbox, name);
    if f !in t1.folders || Clash(t1, f, id) then RolledBack else Committed(AddRow(t1, f, id, flags))
  }

  /** A sent, received or imported message: its row and the membership of the
      protocol folder its HTTP folder names. DMARC intake gets no membership. */
  function Deliver(t: Tables, id: EmailId, email: Email): Outcome {
    if id in t.emails || email.mailbox !in t.mailboxes then RolledBack
    else
      var t1 := t.(emails := t.emails[id := email.(sourced := true)]);
      if email.dmarcIntake then Committed(t1)
      else AddMembership(t1, email.mailbox, ProtocolFolderName(email.folder), id, {})
  }

  function Appended(t: Tables, mailbox: MailboxId, name: string, flags: seq<string>): Email
    requires mailbox in t.mailboxes
  {
    var http := HttpFolderName(name);
    Email(t.mailboxes[mailbox], mailbox, http, HasSystemFlag(flags, "\\Seen"), false,
          http == "drafts" || HasSystemFlag(flags, "\\Draft"), false, true)
  }

  function AppendMessage(t: Tables, id: EmailId, mailbox: MailboxId, name: string, flags: seq<string>): Outcome {
    if mailbox !in t.mailboxes || Trim(name) == "" || id in t.emails then RolledBack
    else
      AddMembership(t.(emails := t.emails[id := Appended(t, mailbox, Trim(name), flags)]), mailbox, Trim(name), id,
          StoredFlags(flags))
  }

  function Copied(source: Email, mailbox: MailboxId, name: string): Email {
    Email(source.account, mailbox, HttpFolderName(name), source.read, source.starred, false, false, true)
  }

  function CopyEmail(t: Tables, source: EmailId, id: EmailId, mailbox: MailboxId, name: string): Outcome {
    if source !in t.emails || mailbox !in t.mailboxes || id in t.emails then RolledBack
    else AddMembership(t.(emails := t.emails[id := Copied(t.emails[source], mailbox, name)]), mailbox, name, id, {})
  }

  function Backfill(t: Tables, id: EmailId): Outcome {
    if id !in t.emails || t.emails[id].sourced then RolledBack
    else
      var email := t.emails[id];
      AddMembership(t.(emails := t.emails[id := email.(sourced := true)]), email.mailbox,
          ProtocolFolderName(email.folder), id, {})
  }

  // ---- moving, copying and flagging memberships ----

  /** Give each listed member of `source` a new row in `target` with its flags. */
  function AddAll(t: Tables, source: FolderKey, target: FolderKey, order: seq<EmailId>): Outcome
    requires target in t.folders
    requires forall id :: id in order ==> RowKey(source, id) in t.rows
    decreases |order|
  {
    if order == [] then Committed(t)
    else if Clash(t, target, order[0]) then RolledBack
    else AddAll(AddRow(t, target, order[0], t.rows[RowKey(source, order[0])].flags), source, target, order[1..])
  }

  function MoveMessages(t: Tables, mailbox: MailboxId, from: string, to: string, ids: set<EmailId>,
      order: seq<EmailId>): Outcome
    requires Enumerates(order, Members(t, FolderKey(mailbox, from), ids))
  {
    var source, target := FolderKey(mailbox, from), FolderKey(mailbox, to);
    if source !in t.folders || target !in t.folders then RolledBack
    else
      match AddAll(t, source, target, order)
      case RolledBack => RolledBack
      case Committed(t1) =>
        // Source and target are saved in this order, so for one folder the
        // bump of the source is lost.
        var t2 := if source == target then t1 else RemoveRows(t1, SourceRows(source, order), {source});
        match HttpFolderForProtocolName(to)
        case None => Committed(t2)
        case Some(http) => Committed(SetHttpFolder(t2, mailbox, (set id | id in order), http))
  }

  function SourceRows(source: FolderKey, order: seq<EmailId>): set<RowKey> {
    set id | id in order :: RowKey(source, id)
  }

  function CopyMessages(t: Tables, mailbox: MailboxId, from: string, to: string, ids: set<EmailId>,
      order: seq<EmailId>): Outcome
    requires Enumerates(order, Members(t, FolderKey(mailbox, from), ids))
  {
    var source, target := FolderKey(mailbox, from), FolderKey(mailbox, to);
    if source !in t.folders || target !in t.folders then RolledBack else AddAll(t, source, target, order)
  }

  predicate Skipped(row: Membership, unchangedSince: nat) {
    unchangedSince > 0 && row.modSeq > unchangedSince
  }

  function StoreAll(t: Tables, f: FolderKey, order: seq<EmailId>, requested: Flags, mode: FlagMode,
      unchangedSince: nat): Tables
    requires f in t.folders
    requires forall id :: id in order ==> RowKey(f, id) in t.rows
    decreases |order|
  {
    if order == [] then t
    else
      var k := RowKey(f, order[0]);
      var t1 := if Skipped(t.rows[k], unchangedSince) then t
          else Reflag(t, k, MergedFlags(t.rows[k].flags, requested, mode));
      StoreAll(t1, f, order[1..], requested, mode, unchangedSince)
  }

  function StoreFlags(t: Tables, mailbox: MailboxId, name: string, ids: set<EmailId>, requested: Flags, mode: FlagMode,
                      unchangedSince: nat, order: seq<EmailId>): Outcome
    requires Enumerates(order, Members(t, FolderKey(mailbox, name), ids))
  {
    var f := FolderKey(mailbox, name);
    if f !in t.folders then RolledBack else Committed(StoreAll(t, f, order, requested, mode, unchangedSince))
  }

  // ---- the HTTP move ----

  /** Take the message out of the folders `fs`. */
  function Expel(t: Tables, id: EmailId, fs: set<FolderKey>): Tables {
    RemoveRows(t, (set f | f in fs :: RowKey(f, id)), fs)
  }

  /** The flags of the first membership found, or else the HTTP state's. */
  function CarriedFlags(t: Tables, id: EmailId, order: seq<FolderKey>): Flags
    requires id in t.emails
    requires forall f :: f in order ==> RowKey(f, id) in t.rows
  {
    if order == [] then HttpFlags(t.emails[id]) else t.rows[RowKey(order[0], id)].flags
  }

  function Relocate(t: Tables, id: EmailId, name: string, order: seq<FolderKey>): Outcome
    requires id in t.emails
    requires forall f :: f in order ==> RowKey(f, id) in t.rows
  {
    var mailbox := t.emails[id].mailbox;
    var t1 := EnsureFolders(t, mailbox);
    var target := FolderKey(mailbox, name);
    if target !in t1.folders then RolledBack
    else
      var displaced := (set f | f in order) - {target};
      var t2 := if displaced == {} then t1 else Expel(t1, id, displaced);
      if target in order then Committed(t2)
      else if Clash(t2, target, id) then RolledBack
      else Committed(AddRow(t2, target, id, CarriedFlags(t, id, order)))
  }

  function MoveEmail(t: Tables, account: AccountId, id: EmailId, folder: string, order: seq<FolderKey>): Outcome
    requires id in t.emails ==> Enumerates(order, Holding(t, t.emails[id].mailbox, id))
  {
    var http := Lower(Trim(folder));
    if !ValidFolder(http) || id !in t.emails || t.emails[id].account != account then RolledBack
    else
      match Relocate(t, id, ProtocolFolderName(http), order)
      case RolledBack => RolledBack
      case Committed(t1) => Committed(SetHttpFolder(t1, t.emails[id].mailbox, {id}, http))
  }

  // ---- deleting for good ----

  function Memberships(t: Tables, id: EmailId): set<RowKey> {
    set k | k in t.rows && k.email == id
  }

  /** purgeEmailRows: every membership goes, each folder that lost one is
      bumped, then the message row itself. */
  function PurgeEmail(t: Tables, id: EmailId): Tables {
    var gone := Memberships(t, id);
    var t1 := RemoveRows(t, gone, (set k | k in gone :: k.folder));
    t1.(emails := t1.emails - {id})
  }

  function PurgeAll(t: Tables, ids: seq<EmailId>): Tables
    decreases |ids|
  {
    if ids == [] then t else PurgeAll(PurgeEmail(t, ids[0]), ids[1..])
  }

  function PurgeMessages(t: Tables, mailbox: MailboxId, name: string, ids: set<EmailId>, order: seq<EmailId>): Outcome
    requires Enumerates(order, Members(t, FolderKey(mailbox, name), ids))
  {
    if mailbox !in t.mailboxes || FolderKey(mailbox, name) !in t.folders then RolledBack
        else Committed(PurgeAll(t, order))
  }

  // ---- one step of the store ----

  datatype Op =
    | CreateMailbox(mailbox: MailboxId, account: AccountId)
    | DeliverOp(id: EmailId, email: Email)
    | AppendOp(id: EmailId, mailbox: MailboxId, name: string, flags: seq<string>)
    | CopyEmailOp(source: EmailId, id: EmailId, mailbox: MailboxId, name: string)
    | BackfillOp(id: EmailId)
    | MoveOp(mailbox: MailboxId, from: string, to: string, ids: set<EmailId>, order: seq<EmailId>)
    | CopyOp(mailbox: MailboxId, from: string, to: string, ids: set<EmailId>, order: seq<EmailId>)
    | StoreOp(mailbox: MailboxId, name: string, ids: set<EmailId>, requested: Flags, mode: FlagMode,
        unchangedSince: nat, order: seq<EmailId>)
    | MoveEmailOp(account: AccountId, id: EmailId, folder: string, held: seq<FolderKey>)
    | PurgeOp(mailbox: MailboxId, name: string, ids: set<EmailId>, order: seq<EmailId>)
    | PurgeEmailsOp(purged: seq<EmailId>)
    | MarkOp(id: EmailId, read: bool, starred: bool)

  /** The row orders the operation carries are ones its queries could return. */
  ghost predicate Enabled(t: Tables, op: Op) {
    match op
    case MoveOp(mailbox, from, _, ids, order) => Enumerates(order, Members(t, FolderKey(mailbox, from), ids))
    case CopyOp(mailbox, from, _, ids, order) => Enumerates(order, Members(t, FolderKey(mailbox, from), ids))
    case StoreOp(mailbox, name, ids, _, _, _, order) => Enumerates(order, Members(t, FolderKey(mailbox, name), ids))
    case PurgeOp(mailbox, name, ids, order) => Enumerates(order, Members(t, FolderKey(mailbox, name), ids))
    case MoveEmailOp(_, id, _, held) => id in t.emails ==> Enumerates(held, Holding(t, t.emails[id].mailbox, id))
    case _ => true
  }

  function Apply(t: Tables, op: Op): Outcome
    requires Enabled(t, op)
  {
    match op
    case CreateMailbox(mailbox, account) =>
      if mailbox in t.mailboxes then RolledBack
      else Committed(EnsureFolders(t.(mailboxes := t.mailboxes[mailbox := account]), mailbox))
    case DeliverOp(id, email) => Deliver(t, id, email)
    case AppendOp(id, mailbox, name, flags) => AppendMessage(t, id, mailbox, name, flags)
    case CopyEmailOp(source, id, mailbox, name) => CopyEmail(t, source, id, mailbox, name)
    case BackfillOp(id) => Backfill(t, id)
    case MoveOp(mailbox, from, to, ids, order) => MoveMessages(t, mailbox, from, to, ids, order)
    case CopyOp(mailbox, from, to, ids, order) => CopyMessages(t, mailbox, from, to, ids, order)
    case StoreOp(mailbox, name, ids, requested, mode, since, order) => StoreFlags(t, mailbox, name, ids, requested,
        mode, since, order)
    case MoveEmailOp(account, id, folder, held) => MoveEmail(t, account, id, folder, held)
    case PurgeOp(mailbox, name, ids, order) => PurgeMessages(t, mailbox, name, ids, order)
    case PurgeEmailsOp(purged) => Committed(PurgeAll(t, purged))
    case MarkOp(id, read, starred) =>
      if id !in t.emails then RolledBack else Committed(t.(emails := t.emails[id := t.emails[id].(read := read,
          starred := starred)]))
  }

  function Step(t: Tables, op: Op): Tables
    requires Enabled(t, op)
  {
    match Apply(t, op)
    case Committed(t1) => t1
    case RolledBack => t
  }

  ghost predicate Runnable(t: Tables, ops: seq<Op>)
    decreases |ops|
  {
    ops == [] || (Enabled(t, ops[0]) && Runnable(Step(t, ops[0]), ops[1..]))
  }

  ghost function Run(t: Tables, ops: seq<Op>): Tables
    requires Runnable(t, ops)
    decreases |ops|
  {
    if ops == [] then t else Run(Step(t, ops[0]), ops[1..])
  }
}
