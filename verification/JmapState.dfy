/** The JMAP state string: the mailbox id and the sum of its folders' highest
    mod-sequences (section 5.1 of RFC 8620). */
module JmapState {
  import opened Text
  import opened MailTables
  import opened SetSum
  import opened Transactions
  import opened StoreRuns

  // ---- decimal numerals ----

  lemma {:induction false} DecimalInjective(m: nat, n: nat)
    requires Decimal(m) == Decimal(n)
    ensures m == n
  {
    var a, b := Decimal(m), Decimal(n);
    assert a[|a| - 1] == ('0' as int + m % 10) as char && b[|b| - 1] == ('0' as int + n % 10) as char;
    if m >= 10 && n >= 10 {
      assert Decimal(m / 10) == a[..|a| - 1] && Decimal(n / 10) == b[..|b| - 1];
      DecimalInjective(m / 10, n / 10);
    }
  }

  // ---- the version ----

  function FolderKeys(t: Tables, mailbox: MailboxId): set<FolderKey> {
    set f | f in t.folders && f.mailbox == mailbox
  }

  ghost function ModSeqOf(t: Tables): FolderKey -> int {
    f => if f in t.folders then t.folders[f].highestModSeq else 0
  }

  ghost function Version(t: Tables, mailbox: MailboxId): nat {
    SumNonNegative(FolderKeys(t, mailbox), ModSeqOf(t));
    Sum(FolderKeys(t, mailbox), ModSeqOf(t))
  }

  ghost function StateString(t: Tables, mailbox: MailboxId): string {
    if mailbox == "" then "session" else mailbox + "-" + Decimal(Version(t, mailbox))
  }

  /** The state loop of the JMAP handler over the mailbox's folder list. */
  method State(t: Tables, mailbox: MailboxId, folders: seq<FolderKey>) returns (state: string)
    requires Enumerates(folders, FolderKeys(t, mailbox))
    ensures state == StateString(t, mailbox)
  {
    if mailbox == "" {
      return "session";
    }
    hide StateString;
    var version := 0;
    assert Left(folders, 0) == FolderKeys(t, mailbox);
    for i := 0 to |folders|
      invariant version + Sum(Left(folders, i), ModSeqOf(t)) == Version(t, mailbox)
    {
      assert folders[i] in folders && folders[i] in FolderKeys(t, mailbox);
      LeftShrinks(folders, i);
      SumWithout(Left(folders, i), ModSeqOf(t), folders[i]);
      version := version + t.folders[folders[i]].highestModSeq;
    }
    state := mailbox + "-" + Decimal(version);
    StateOf(t, mailbox);
  }

  lemma StateOf(t: Tables, mailbox: MailboxId)
    requires mailbox != ""
    ensures StateString(t, mailbox) == mailbox + "-" + Decimal(Version(t, mailbox))
  {
  }

  /** The folders the loop has yet to add. */
  ghost function Left(folders: seq<FolderKey>, i: nat): set<FolderKey>
    requires i <= |folders|
  {
    set f | f in folders[i..]
  }

  lemma LeftShrinks(folders: seq<FolderKey>, i: nat)
    requires i < |folders| && forall j, k :: 0 <= j < k < |folders| ==> folders[j] != folders[k]
    ensures folders[i] in Left(folders, i) && Left(folders, i) - {folders[i]} == Left(folders, i + 1)
  {
    assert folders[i..] == [folders[i]] + folders[i + 1..];
  }

  // ---- what equal states mean ----

  /** Nothing a JMAP client can see of the memberships differs. */
  ghost predicate SameMemberships(t: Tables, u: Tables, mailbox: MailboxId) {
    forall k: RowKey :: k.folder.mailbox == mailbox ==>
      (k in t.rows <==> k in u.rows) && (k in t.rows ==> t.rows[k] == u.rows[k])
  }

  lemma VersionAcross(t: Tables, u: Tables, mailbox: MailboxId)
    requires Inv(t) && Inv(u) && Evolves(t, u)
    ensures Version(t, mailbox) <= Version(u, mailbox)
    ensures Version(t, mailbox) == Version(u, mailbox) ==> SameMemberships(t, u, mailbox)
  {
    assert forall f :: f in t.folders ==> FolderGrows(t, u, f);
    SumGrows(FolderKeys(t, mailbox), ModSeqOf(t), FolderKeys(u, mailbox), ModSeqOf(u));
    if Version(t, mailbox) == Version(u, mailbox) {
      forall k: RowKey | k.folder.mailbox == mailbox
        ensures (k in t.rows <==> k in u.rows) && (k in t.rows ==> t.rows[k] == u.rows[k])
      {
        if k in u.rows {
          assert RowOk(u, k) && k.folder in FolderKeys(u, mailbox);
          assert k.folder !in FolderKeys(t, mailbox) ==> k.folder in FolderKeys(u, mailbox) - FolderKeys(t, mailbox);
          StillKnown(t, u, k);
        }
        if k in t.rows {
          assert RowOk(t, k) && MemberKept(t, u, k);
          assert k.folder in FolderKeys(t, mailbox);
        }
      }
    }
  }

  /** A row of a folder whose counter did not move, or that would have to be
      new with a zero counter, was there before. */
  lemma StillKnown(t: Tables, u: Tables, k: RowKey)
    requires Inv(t) && Inv(u) && Evolves(t, u) && k in u.rows
    requires k.folder in t.folders ==> t.folders[k.folder].highestModSeq == u.folders[k.folder].highestModSeq
    requires k.folder !in t.folders ==> u.folders[k.folder].highestModSeq == 0
    ensures k in t.rows && t.rows[k] == u.rows[k]
  {
    assert RowOk(u, k) && RowKnown(t, u, k);
  }

  /** Between two points of a run the version never decreases, and equal state
      strings mean identical memberships and stored flags. */
  lemma EqualStatesMeanUnchanged(t: Tables, ops: seq<Op>, mailbox: MailboxId)
    requires Reachable(t) && Runnable(t, ops) && mailbox != ""
    ensures Version(t, mailbox) <= Version(Run(t, ops), mailbox)
    ensures StateString(t, mailbox) == StateString(Run(t, ops), mailbox) ==> SameMemberships(t, Run(t, ops), mailbox)
  {
    hide Runnable, Run, Reachable, Inv, Evolves, SameMemberships;
    ReachableInv(t);
    RunAdvances(t, ops);
    VersionAcross(t, Run(t, ops), mailbox);
    var a, b := StateString(t, mailbox), StateString(Run(t, ops), mailbox);
    if a == b {
      var n := |mailbox| + 1;
      assert a[n..] == Decimal(Version(t, mailbox)) && b[n..] == Decimal(Version(Run(t, ops), mailbox));
      DecimalInjective(Version(t, mailbox), Version(Run(t, ops), mailbox));
    }
  }
}
