/** The relational tables behind the three mail protocols, as values.

    A folder row is identified by its unique (mailbox, name) key, a membership
    row by its primary key (folder, message). Flags are stored as a sorted JSON
    array without duplicates; here they are the set of its elements. */
module MailTables {
  import opened Text
  import opened Wrappers

  type MailboxId = string
  type AccountId = string
  type EmailId = string
  type Flags = set<string>

  datatype FolderKey = FolderKey(mailbox: MailboxId, name: string)
  datatype Folder = Folder(nextUid: nat, highestModSeq: nat)
  datatype RowKey = RowKey(folder: FolderKey, email: EmailId)
  datatype Membership = Membership(uid: nat, flags: Flags, modSeq: nat)

  /** `sourced` says whether the message has its protocol source row, which
      messages stored before protocol support lack. */
  datatype Email = Email(account: AccountId, mailbox: MailboxId, folder: string,
                         read: bool, starred: bool, draft: bool,
                         dmarcIntake: bool, sourced: bool)

  datatype Tables = Tables(
    mailboxes: map<MailboxId, AccountId>,
    folders: map<FolderKey, Folder>,
    rows: map<RowKey, Membership>,
    emails: map<EmailId, Email>)

  /** A transaction either commits new tables or leaves the old ones. */
  datatype Outcome = Committed(tables: Tables) | RolledBack

  const DEFAULT_FOLDERS: seq<string> := ["INBOX", "Sent", "Drafts", "Spam", "Trash", "Archive"]

  function ProtocolFolderName(folder: string): (r: string)
    ensures r in DEFAULT_FOLDERS
  {
    CanonicalName(Lower(Trim(folder)))
  }

  function CanonicalName(name: string): (r: string)
    ensures r in DEFAULT_FOLDERS
  {
    match name
    case "sent" => DEFAULT_FOLDERS[1]
    case "drafts" => DEFAULT_FOLDERS[2]
    case "spam" => DEFAULT_FOLDERS[3]
    case "trash" => DEFAULT_FOLDERS[4]
    case "archive" => DEFAULT_FOLDERS[5]
    case _ => DEFAULT_FOLDERS[0]
  }

  function HttpFolderForProtocolName(name: string): Option<string> {
    var lowered := Lower(Trim(name));
    if ValidFolder(lowered) then Some(lowered) else None
  }

  function HttpFolderName(name: string): string {
    match HttpFolderForProtocolName(name)
    case Some(folder) => folder
    case None => "inbox"
  }

  predicate ValidFolder(folder: string) {
    folder in ["inbox", "sent", "drafts", "spam", "trash", "archive"]
  }

  lemma TrimStable(s: string)
    requires s != "" && !IsSpace(s[0]) && !IsSpace(s[|s| - 1])
    ensures Trim(s) == s
  {
  }

  lemma FolderNamePair(name: string, http: string)
    requires |name| == |http| > 0 && !IsSpace(name[0]) && !IsSpace(name[|name| - 1])
    requires forall i :: 0 <= i < |name| ==> LowerChar(name[i]) == http[i]
    requires !IsSpace(http[0]) && !IsSpace(http[|name| - 1])
    requires Lower(http) == http
    ensures Lower(Trim(name)) == http && Lower(Trim(http)) == http
  {
    TrimStable(name);
    TrimStable(http);
    assert Lower(name) == http;
  }

  /** The two names of one default folder, in the three functions that map them. */
  ghost predicate Paired(name: string, http: string) {
    && HttpFolderForProtocolName(name) == Some(http) && HttpFolderName(name) == http
    && ProtocolFolderName(http) == name
  }

  lemma InboxPair()
    ensures Paired("INBOX", "inbox")
  {
    hide Trim, Lower;
    FolderNamePair("INBOX", "inbox");
  }

  lemma SentPair()
    ensures Paired("Sent", "sent")
  {
    hide Trim, Lower;
    FolderNamePair("Sent", "sent");
  }

  lemma DraftsPair()
    ensures Paired("Drafts", "drafts")
  {
    hide Trim, Lower;
    FolderNamePair("Drafts", "drafts");
  }

  lemma SpamPair()
    ensures Paired("Spam", "spam")
  {
    hide Trim, Lower;
    FolderNamePair("Spam", "spam");
  }

  lemma TrashPair()
    ensures Paired("Trash", "trash")
  {
    hide Trim, Lower;
    FolderNamePair("Trash", "trash");
  }

  lemma ArchivePair()
    ensures Paired("Archive", "archive")
  {
    hide Trim, Lower;
    FolderNamePair("Archive", "archive");
  }

  lemma DefaultPairs()
    ensures Paired("INBOX", "inbox") && Paired("Sent", "sent") && Paired("Drafts", "drafts")
    ensures Paired("Spam", "spam") && Paired("Trash", "trash") && Paired("Archive", "archive")
  {
    hide Paired;
    InboxPair();
    SentPair();
    DraftsPair();
    SpamPair();
    TrashPair();
    ArchivePair();
  }

  /** On the six default folders the two naming schemes are inverse to each
      other: protocol name to HTTP folder and back, and HTTP folder to protocol
      name and back. */
  lemma FolderNamesRoundTrip(name: string, http: string)
    ensures name in DEFAULT_FOLDERS ==>
              HttpFolderForProtocolName(name).Some? && ProtocolFolderName(HttpFolderForProtocolName(name).value) == name
    ensures name in DEFAULT_FOLDERS ==> ProtocolFolderName(HttpFolderName(name)) == name
    ensures ValidFolder(http) ==> HttpFolderForProtocolName(ProtocolFolderName(http)) == Some(http)
    ensures ValidFolder(http) ==> HttpFolderName(ProtocolFolderName(http)) == http
  {
    hide ProtocolFolderName, HttpFolderForProtocolName, HttpFolderName;
    DefaultPairs();
  }

  /** The messages among `ids` that have a membership in `f`. */
  function Members(t: Tables, f: FolderKey, ids: set<EmailId>): set<EmailId> {
    set id | id in ids && RowKey(f, id) in t.rows
  }

  /** The folders of the message's own mailbox that hold it. */
  function Holding(t: Tables, mailbox: MailboxId, id: EmailId): set<FolderKey> {
    set f | f in t.folders && f.mailbox == mailbox && RowKey(f, id) in t.rows
  }

  // ---- the row-level effects every transaction is composed of ----

  function EnsureFolders(t: Tables, mailbox: MailboxId): Tables {
    t.(folders := (map name | name in DEFAULT_FOLDERS :: FolderKey(mailbox, name) := Folder(1, 1)) + t.folders)
  }

  /** Inserting a membership violates the primary key or the unique
      (folder, uid) index. */
  predicate Clash(t: Tables, f: FolderKey, id: EmailId)
    requires f in t.folders
  {
    RowKey(f, id) in t.rows || exists k :: k in t.rows && k.folder == f && t.rows[k].uid == t.folders[f].nextUid
  }

  /** One new membership under the folder's next UID and mod-sequence. */
  function AddRow(t: Tables, f: FolderKey, id: EmailId, flags: Flags): Tables
    requires f in t.folders
  {
    var folder := t.folders[f];
    t.(rows := t.rows[RowKey(f, id) := Membership(folder.nextUid, flags, folder.highestModSeq + 1)],
       folders := t.folders[f := Folder(folder.nextUid + 1, folder.highestModSeq + 1)])
  }

  /** Delete the rows `gone` and give each folder in `bumped` one new mod-sequence. */
  function RemoveRows(t: Tables, gone: set<RowKey>, bumped: set<FolderKey>): Tables {
    t.(rows := t.rows - gone,
       folders := map f | f in t.folders :: if f in bumped
           then t.folders[f].(highestModSeq := t.folders[f].highestModSeq + 1) else t.folders[f])
  }

  /** New flags for one membership under a new mod-sequence. */
  function Reflag(t: Tables, k: RowKey, flags: Flags): Tables
    requires k in t.rows && k.folder in t.folders
  {
    var modSeq := t.folders[k.folder].highestModSeq + 1;
    t.(rows := t.rows[k := t.rows[k].(flags := flags, modSeq := modSeq)],
       folders := t.folders[k.folder := t.folders[k.folder].(highestModSeq := modSeq)])
  }

  /** Record `folder` as the HTTP folder of the listed messages of `mailbox`. */
  function SetHttpFolder(t: Tables, mailbox: MailboxId, ids: set<EmailId>, folder: string): Tables {
    t.(emails := map id | id in t.emails ::
      if id in ids && t.emails[id].mailbox == mailbox then t.emails[id].(folder := folder) else t.emails[id])
  }
}
