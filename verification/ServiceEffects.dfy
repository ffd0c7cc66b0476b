/** What each service call of the mail store commits, on which messages, and by
    how much the folder counters move. */
module ServiceEffects {
  import opened FlagNames
  import opened MailTables
  import opened StoreEffects
  import opened StoreRuns
  import opened Text
  import opened Transactions
  import opened Wrappers

  // ---- COPY, STORE and EXPUNGE over the members of a folder ----

  /** COPY commits iff both folders exist and no listed member of the source is in
      the target already; then every listed member is copied. */
  lemma CopyEffect(t: Tables, mailbox: MailboxId, from: string, to: string, ids: set<EmailId>, order: seq<EmailId>)
    requires Inv(t) && Enumerates(order, Members(t, FolderKey(mailbox, from), ids))
    ensures var source, target := FolderKey(mailbox, from), FolderKey(mailbox, to);
            var o := CopyMessages(t, mailbox, from, to, ids, order);
            && (o.Committed? <==>
                  && source in t.folders && target in t.folders
                  && forall id :: id in Members(t, source, ids) ==> RowKey(target, id) !in t.rows)
            && (o.Committed? ==> Added(t, o.tables, source, target, order))
  {
    hide Inv, AddAll, Added;
    if FolderKey(mailbox, from) in t.folders && FolderKey(mailbox, to) in t.folders {
      AddAllEffect(t, FolderKey(mailbox, from), FolderKey(mailbox, to), order);
    }
  }

  function Unskipped(t: Tables, f: FolderKey, order: seq<EmailId>, since: nat): nat
    requires forall id :: id in order ==> RowKey(f, id) in t.rows
    decreases |order|
  {
    if order == [] then 0
    else (if Skipped(t.rows[RowKey(f, order[0])], since) then 0 else 1) + Unskipped(t, f, order[1..], since)
  }

  lemma {:induction false} UnskippedElsewhere(t: Tables, u: Tables, f: FolderKey, order: seq<EmailId>, since: nat)
    requires forall id :: id in order ==> RowKey(f, id) in t.rows && RowKey(f, id) in u.rows
    requires forall id :: id in order ==> u.rows[RowKey(f, id)] == t.rows[RowKey(f, id)]
    ensures Unskipped(u, f, order, since) == Unskipped(t, f, order, since)
    decreases |order|
  {
    if order != [] {
      UnskippedElsewhere(t, u, f, order[1..], since);
    }
  }

  lemma {:induction false} StoreCounts(t: Tables, f: FolderKey, order: seq<EmailId>, requested: Flags,
      mode: FlagMode, since: nat)
    requires f in t.folders
    requires forall id :: id in order ==> RowKey(f, id) in t.rows
    requires forall i, j :: 0 <= i < j < |order| ==> order[i] != order[j]
    ensures var u := StoreAll(t, f, order, requested, mode, since);
            f in u.folders && u.folders[f].highestModSeq == t.folders[f].highestModSeq + Unskipped(t, f, order, since)
    decreases |order|
  {
    if order != [] {
      hide MergedFlags;
      var k, rest := RowKey(f, order[0]), order[1..];
      assert order[0] !in rest && forall id :: id in rest ==> id in order;
      var t1 := if Skipped(t.rows[k], since) then t else Reflag(t, k, MergedFlags(t.rows[k].flags, requested, mode));
      StoreCounts(t1, f, rest, requested, mode, since);
      UnskippedElsewhere(t, t1, f, rest, since);
    }
  }

  /** STORE commits iff the folder exists; every listed member is flagged, and the
      folder's mod-sequence moves by the number of rows not skipped. */
  lemma StoreFlagsEffect(t: Tables, mailbox: MailboxId, name: string, ids: set<EmailId>, requested: Flags,
      mode: FlagMode, since: nat, order: seq<EmailId>)
    requires Enumerates(order, Members(t, FolderKey(mailbox, name), ids))
    ensures var f := FolderKey(mailbox, name);
            var o := StoreFlags(t, mailbox, name, ids, requested, mode, since, order);
            && (o.Committed? <==> f in t.folders)
            && (o.Committed? ==>
                  && Flagged(t, o.tables, f, order, requested, mode, since)
                  && o.tables.folders[f].highestModSeq ==
                     t.folders[f].highestModSeq + Unskipped(t, f, order, since))
  {
    hide StoreAll, Flagged, Unskipped;
    var f := FolderKey(mailbox, name);
    if f in t.folders {
      StoreEffect(t, f, order, requested, mode, since);
      StoreCounts(t, f, order, requested, mode, since);
    }
  }

  ghost function Lost(t: Tables, f: FolderKey, ids: set<EmailId>): set<RowKey> {
    set k | k in t.rows && k.folder == f && k.email in ids
  }

  lemma PurgeEmailCounts(t: Tables, id: EmailId, f: FolderKey)
    requires f in t.folders
    ensures var u := PurgeEmail(t, id);
            f in u.folders && u.folders[f].highestModSeq == t.folders[f].highestModSeq + |Lost(t, f, {id})|
  {
    var gone := Memberships(t, id);
    var bumped := set k | k in gone :: k.folder;
    if RowKey(f, id) in t.rows {
      assert RowKey(f, id) in gone && f in bumped;
      assert Lost(t, f, {id}) == {RowKey(f, id)};
    } else {
      assert Lost(t, f, {id}) == {};
      assert f !in bumped by {
        assert forall k :: k in gone ==> k == RowKey(k.folder, id);
      }
    }
  }

  lemma {:induction false} PurgeCounts(t: Tables, ids: seq<EmailId>, f: FolderKey)
    requires f in t.folders
    ensures var u := PurgeAll(t, ids);
            && f in u.folders
            && u.folders[f].highestModSeq == t.folders[f].highestModSeq + |Lost(t, f, set id | id in ids)|
    decreases |ids|
  {
    hide PurgeEmail;
    var all := set id | id in ids;
    if ids == [] {
      assert Lost(t, f, all) == {};
    } else {
      var t1, rest := PurgeEmail(t, ids[0]), set id | id in ids[1..];
      PurgeEmailCounts(t, ids[0], f);
      PurgeOne(t, ids[0]);
      PurgeCounts(t1, ids[1..], f);
      assert Lost(t, f, all) == Lost(t, f, {ids[0]}) + Lost(t1, f, rest) by {
        assert forall id :: id in all <==> id == ids[0] || id in rest;
      }
      assert Lost(t, f, {ids[0]}) !! Lost(t1, f, rest);
    }
  }

  /** A purge by folder commits iff mailbox and folder exist. It removes exactly
      the listed members, everywhere, and moves each folder's mod-sequence by the
      rows it lost. */
  lemma PurgeMessagesEffect(t: Tables, mailbox: MailboxId, name: string, ids: set<EmailId>, order: seq<EmailId>)
    requires Enumerates(order, Members(t, FolderKey(mailbox, name), ids))
    ensures var f := FolderKey(mailbox, name);
            var o, members := PurgeMessages(t, mailbox, name, ids, order), Members(t, f, ids);
            && (o.Committed? <==> mailbox in t.mailboxes && f in t.folders)
            && (o.Committed? ==>
                  && Purged(t, o.tables, members)
                  && forall g :: g in t.folders ==>
                       o.tables.folders[g].highestModSeq == t.folders[g].highestModSeq + |Lost(t, g, members)|)
  {
    hide PurgeAll, Purged;
    var f := FolderKey(mailbox, name);
    var members := Members(t, f, ids);
    assert (set id | id in order) == members;
    PurgeEffect(t, order);
    if mailbox in t.mailboxes && f in t.folders {
      forall g | g in t.folders
        ensures g in PurgeAll(t, order).folders
        ensures PurgeAll(t, order).folders[g].highestModSeq == t.folders[g].highestModSeq + |Lost(t, g, members)|
      {
        PurgeCounts(t, order, g);
      }
    }
  }

  // ---- filing a message ----

  /** The counters of the folder, which start at one when it is created. */
  function FolderOr1(t: Tables, f: FolderKey): Folder {
    if f in t.folders then t.folders[f] else Folder(1, 1)
  }

  /** The message row and one membership in `f` under the next UID and
      mod-sequence; missing default folders of the mailbox are created. */
  ghost predicate Filed(t: Tables, u: Tables, id: EmailId, email: Email, f: FolderKey, flags: Flags) {
    var was := FolderOr1(t, f);
    && u.mailboxes == t.mailboxes && u.emails == t.emails[id := email]
    && u.rows == t.rows[RowKey(f, id) := Membership(was.nextUid, flags, was.highestModSeq + 1)]
    && f in u.folders && u.folders[f] == Folder(was.nextUid + 1, was.highestModSeq + 1)
    && forall g :: g != f ==>
         && (g in u.folders <==> g in t.folders || (g.mailbox == f.mailbox && g.name in DEFAULT_FOLDERS))
         && (g in u.folders ==> u.folders[g] == FolderOr1(t, g))
  }

  lemma EnsureIs(t: Tables, mailbox: MailboxId, g: FolderKey)
    ensures var u := EnsureFolders(t, mailbox);
            && u.rows == t.rows && u.emails == t.emails && u.mailboxes == t.mailboxes
            && (g in u.folders <==> g in t.folders || (g.mailbox == mailbox && g.name in DEFAULT_FOLDERS))
            && (g in u.folders ==> u.folders[g] == FolderOr1(t, g))
  {
    if g.mailbox == mailbox && g.name in DEFAULT_FOLDERS {
      assert g == FolderKey(mailbox, g.name);
    }
  }

  lemma NoClash(t: Tables, email: Email, f: FolderKey, id: EmailId)
    requires Inv(t)
    ensures var t1 := EnsureFolders(t.(emails := t.emails[id := email]), f.mailbox);
            f in t1.folders ==> (Clash(t1, f, id) <==> RowKey(f, id) in t.rows)
  {
    hide EnsureFolders;
    EnsureIs(t.(emails := t.emails[id := email]), f.mailbox, f);
    assert forall k :: k in t.rows ==> RowOk(t, k);
  }

  lemma MembershipEffect(t: Tables, id: EmailId, email: Email, mailbox: MailboxId, name: string, flags: Flags)
    requires Inv(t)
    ensures var f := FolderKey(mailbox, name);
            var o := AddMembership(t.(emails := t.emails[id := email]), mailbox, name, id, flags);
            && (o.Committed? <==> (f in t.folders || name in DEFAULT_FOLDERS) && RowKey(f, id) !in t.rows)
            && (o.Committed? ==> Filed(t, o.tables, id, email, f, flags))
  {
    var f, base := FolderKey(mailbox, name), t.(emails := t.emails[id := email]);
    hide EnsureFolders, Clash, Inv;
    NoClash(t, email, f, id);
    forall g
      ensures var u := EnsureFolders(base, mailbox);
              && u.rows == t.rows && u.emails == base.emails && u.mailboxes == t.mailboxes
              && (g in u.folders <==> g in t.folders || (g.mailbox == mailbox && g.name in DEFAULT_FOLDERS))
              && (g in u.folders ==> u.folders[g] == FolderOr1(t, g))
    {
      EnsureIs(base, mailbox, g);
    }
  }

  lemma NewHasNoRow(t: Tables, id: EmailId)
    requires Inv(t) && id !in t.emails
    ensures forall k :: k in t.rows ==> k.email != id
  {
    assert forall k :: k in t.rows ==> RowOk(t, k);
  }

  lemma {:induction false} StoredNamesAre(flags: seq<string>, flag: string)
    ensures flag in StoredNames(flags) <==>
              && flag != "" && (flag[0] == '\\' || flag[0] == '$')
              && exists i :: 0 <= i < |flags| && Trim(flags[i]) == flag
    decreases |flags|
  {
    if flags != [] {
      var n := |flags| - 1;
      StoredNamesAre(flags[..n], flag);
      assert forall i :: 0 <= i < n ==> flags[..n][i] == flags[i];
    }
  }

  predicate Mentions(flags: seq<string>, lowered: string) {
    exists i :: 0 <= i < |flags| && Lower(flags[i]) == lowered
  }

  lemma SystemFlagLower()
    ensures Lower("\\Seen") == "\\seen" && Lower("\\Draft") == "\\draft"
  {
  }

  /** APPEND commits iff the mailbox exists, the name is not blank and the folder
      exists or is a default one. The message takes its read and draft columns
      from the flags it names, in any case, and from the folder; the membership
      takes exactly the trimmed names that begin with a backslash or a dollar. */
  lemma AppendEffect(t: Tables, id: EmailId, mailbox: MailboxId, name: string, flags: seq<string>)
    requires Inv(t)
    ensures var f, folder := FolderKey(mailbox, Trim(name)), Lower(Trim(Trim(name)));
            var o := AppendMessage(t, id, mailbox, name, flags);
            && (o.Committed? <==>
                  && mailbox in t.mailboxes && Trim(name) != "" && id !in t.emails
                  && (f in t.folders || Trim(name) in DEFAULT_FOLDERS))
            && (o.Committed? ==>
                  && var http := if ValidFolder(folder) then folder else "inbox";
                  && Filed(t, o.tables, id,
                           Email(t.mailboxes[mailbox], mailbox, http, Mentions(flags, "\\seen"), false,
                                 http == "drafts" || Mentions(flags, "\\draft"), false, true),
                           f, o.tables.rows[RowKey(f, id)].flags)
                  && forall flag :: flag in o.tables.rows[RowKey(f, id)].flags <==>
                       flag != "" && (flag[0] == '\\' || flag[0] == '$')
                       && exists i :: 0 <= i < |flags| && Trim(flags[i]) == flag)
  {
    hide Lower, Trim, AddMembership, Inv, Filed;
    SystemFlagLower();
    if mailbox in t.mailboxes && Trim(name) != "" && id !in t.emails {
      NewHasNoRow(t, id);
      var email := Appended(t, mailbox, Trim(name), flags);
      MembershipEffect(t, id, email, mailbox, Trim(name), StoredFlags(flags));
      var o := AppendMessage(t, id, mailbox, name, flags);
      if o.Committed? {
        FiledRow(t, o.tables, id, email, FolderKey(mailbox, Trim(name)), StoredFlags(flags));
        forall flag
          ensures flag in StoredFlags(flags) <==>
                    flag != "" && (flag[0] == '\\' || flag[0] == '$')
                    && exists i :: 0 <= i < |flags| && Trim(flags[i]) == flag
        {
          StoredNamesAre(flags, flag);
        }
      }
    }
  }

  lemma FiledRow(t: Tables, u: Tables, id: EmailId, email: Email, f: FolderKey, flags: Flags)
    requires Filed(t, u, id, email, f, flags)
    ensures RowKey(f, id) in u.rows && u.rows[RowKey(f, id)].flags == flags
  {
  }

  /** A delivery always commits for a new message of a known mailbox, into the
      protocol folder of its HTTP folder and without flags; DMARC intake gets
      only its message row. */
  lemma DeliverEffect(t: Tables, id: EmailId, email: Email)
    requires Inv(t)
    ensures var f := FolderKey(email.mailbox, ProtocolFolderName(email.folder));
            var o := Deliver(t, id, email);
            && (o.Committed? <==> id !in t.emails && email.mailbox in t.mailboxes)
            && (o.Committed? ==>
                  if email.dmarcIntake then o.tables == t.(emails := t.emails[id := email.(sourced := true)])
                  else Filed(t, o.tables, id, email.(sourced := true), f, {}))
  {
    hide ProtocolFolderName, AddMembership, Inv, Filed;
    if id !in t.emails {
      NewHasNoRow(t, id);
      MembershipEffect(t, id, email.(sourced := true), email.mailbox, ProtocolFolderName(email.folder), {});
    }
  }

  /** A JMAP copy commits iff source and mailbox exist, the id is new and the
      folder exists or is a default one. The copy keeps account, read and starred
      state, is no draft, and its membership has no flags. */
  lemma CopyEmailEffect(t: Tables, source: EmailId, id: EmailId, mailbox: MailboxId, name: string)
    requires Inv(t)
    ensures var f, folder := FolderKey(mailbox, name), Lower(Trim(name));
            var o := CopyEmail(t, source, id, mailbox, name);
            && (o.Committed? <==>
                  && source in t.emails && mailbox in t.mailboxes && id !in t.emails
                  && (f in t.folders || name in DEFAULT_FOLDERS))
            && (o.Committed? ==>
                  var from, http := t.emails[source], if ValidFolder(folder) then folder else "inbox";
                  Filed(t, o.tables, id,
                        Email(from.account, mailbox, http, from.read, from.starred, false, false, true), f, {}))
  {
    hide Lower, Trim, AddMembership, Inv, Filed;
    if source in t.emails && id !in t.emails {
      NewHasNoRow(t, id);
      MembershipEffect(t, id, Copied(t.emails[source], mailbox, name), mailbox, name, {});
    }
  }

  /** Backfill commits iff the message lacks its source and its home membership;
      it adds both and changes nothing else of it. */
  lemma BackfillEffect(t: Tables, id: EmailId)
    requires Inv(t)
    ensures var o := Backfill(t, id);
            && (o.Committed? <==>
                  && id in t.emails && !t.emails[id].sourced
                  && RowKey(FolderKey(t.emails[id].mailbox, ProtocolFolderName(t.emails[id].folder)), id) !in t.rows)
            && (o.Committed? ==>
                  var email := t.emails[id];
                  Filed(t, o.tables, id, email.(sourced := true),
                        FolderKey(email.mailbox, ProtocolFolderName(email.folder)), {}))
  {
    hide ProtocolFolderName, AddMembership, Inv, Filed;
    if id in t.emails {
      var email := t.emails[id];
      MembershipEffect(t, id, email.(sourced := true), email.mailbox, ProtocolFolderName(email.folder), {});
    }
  }

  // ---- the HTTP move ----

  /** The counters after an HTTP move: the home folder spends a UID and a
      mod-sequence iff the message is new to it, each other folder that held the
      message one mod-sequence, and no other folder anything. */
  lemma MoveEmailCounts(t: Tables, account: AccountId, id: EmailId, folder: string, order: seq<FolderKey>, g: FolderKey)
    requires Inv(t) && id in t.emails && Enumerates(order, Holding(t, t.emails[id].mailbox, id))
    requires MoveEmail(t, account, id, folder, order).Committed? && g in t.folders
    ensures var u := MoveEmail(t, account, id, folder, order).tables;
            var home := FolderKey(t.emails[id].mailbox, ProtocolFolderName(Lower(Trim(folder))));
            var was := t.folders[g];
            && g in u.folders
            && u.folders[g] ==
               (if g == home then
                  if RowKey(g, id) in t.rows then was else Folder(was.nextUid + 1, was.highestModSeq + 1)
                else if RowKey(g, id) in t.rows then Folder(was.nextUid, was.highestModSeq + 1)
                else was)
            && (g == home && RowKey(g, id) !in t.rows ==>
                  && RowKey(g, id) in u.rows
                  && u.rows[RowKey(g, id)].uid == was.nextUid && u.rows[RowKey(g, id)].modSeq == was.highestModSeq + 1)
  {
    hide Inv, ProtocolFolderName, Lower, Trim, Relocate;
    var name := ProtocolFolderName(Lower(Trim(folder)));
    HeldIsListed(t, id, order, g);
    assert forall f :: f in order ==> RowKey(f, id) in t.rows;
    RelocateCounts(t, id, name, order, g);
  }

  lemma HeldIsListed(t: Tables, id: EmailId, order: seq<FolderKey>, g: FolderKey)
    requires Inv(t) && id in t.emails && Enumerates(order, Holding(t, t.emails[id].mailbox, id))
    ensures g in order <==> RowKey(g, id) in t.rows
  {
    assert RowKey(g, id) in t.rows ==> RowOk(t, RowKey(g, id));
  }

  lemma RelocateCounts(t: Tables, id: EmailId, name: string, order: seq<FolderKey>, g: FolderKey)
    requires id in t.emails && (forall f :: f in order ==> RowKey(f, id) in t.rows)
    requires Relocate(t, id, name, order).Committed? && g in t.folders
    ensures var u := Relocate(t, id, name, order).tables;
            var target, was := FolderKey(t.emails[id].mailbox, name), t.folders[g];
            && g in u.folders
            && u.folders[g] ==
               (if g == target then if g in order then was else Folder(was.nextUid + 1, was.highestModSeq + 1)
                else if g in order then Folder(was.nextUid, was.highestModSeq + 1)
                else was)
            && (g == target && g !in order ==>
                  && RowKey(g, id) in u.rows
                  && u.rows[RowKey(g, id)].uid == was.nextUid && u.rows[RowKey(g, id)].modSeq == was.highestModSeq + 1)
  {
    hide Relocate, Displaced, CarriedFlags;
    var target := FolderKey(t.emails[id].mailbox, name);
    DisplacedCounts(t, id, target, order, g);
    RelocateIs(t, id, name, order);
  }

  lemma DisplacedCounts(t: Tables, id: EmailId, target: FolderKey, order: seq<FolderKey>, g: FolderKey)
    requires g in t.folders
    ensures var u, was := Displaced(t, id, target, order), t.folders[g];
            && g in u.folders
            && u.folders[g] == if g in order && g != target then Folder(was.nextUid, was.highestModSeq + 1) else was
  {
    hide EnsureFolders;
    EnsureIs(t, target.mailbox, g);
    var displaced := (set f | f in order) - {target};
    assert g in displaced <==> g in order && g != target;
  }

  /** Without a membership to take them from, the flags are the HTTP state's. */
  lemma HttpFlagsAre(email: Email, flag: string)
    ensures flag in HttpFlags(email) <==>
              || (flag == "\\Seen" && email.read) || (flag == "\\Flagged" && email.starred)
              || (flag == "\\Draft" && email.draft)
  {
  }

  /** Names outside the six folders file a message in INBOX, and have no HTTP
      folder of their own. */
  lemma OtherNamesAreInbox(name: string)
    ensures !ValidFolder(Lower(Trim(name))) ==>
              && ProtocolFolderName(name) == "INBOX" && HttpFolderForProtocolName(name) == None
              && HttpFolderName(name) == "inbox"
    ensures ValidFolder(Lower(Trim(name))) ==>
              HttpFolderForProtocolName(name) == Some(Lower(Trim(name))) && HttpFolderName(name) == Lower(Trim(name))
  {
    hide Lower, Trim;
  }
}
