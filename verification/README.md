# Verification of the mail service's core

A Dafny model of the stateful core of the ElecPostal mail service, with proofs
of what its protocols and transactions keep. `dafny verify dfyconfig.toml`
checks the whole project.

- **The mail store.** One mailbox is visible over HTTP, IMAP/POP3 and JMAP.
  `MailTables` holds the tables, `Transactions` each transaction as a function
  of them, `ProtocolStore` the same transactions as methods that update the
  tables in place and are proved equal to those functions. `StoreRuns`,
  `StoreEffects`, `ServiceEffects`, `FolderAgreement` and `JmapState` prove UID discipline,
  incremental synchronisation, the exact effect of each transaction, the
  agreement of the two folder models, and what the JMAP state string means, over
  every run of the store. A transaction is one atomic step that commits or, on a
  key clash, leaves the tables alone.
- **Metering, scheduling, quota, attachments.** `Calendar`, `SendUsage` and
  `SendLimits`, `Scheduler`, `Quota` and `Attachments`, over runs and
  interleavings.
- **Sender policy.** `Cidr`, `Spf`, `SpfTerms` and `SpfMeaning`: bit-level prefix
  matching, the recursive evaluator over an arbitrary DNS map, its work bound,
  record simplification, and what each term decides. `TxtCache` is the shared
  cache under interleaved lookups.
- **Import, line wrapping, tags, scoring.** `ImportBatch` (the loop),
  `ImportReport`, `ImportThreads` and `ImportHeaders`; `LineWriter`; `FlagNames`,
  `Keywords` and `TagRuns`; `ExpSeries`, `Bayes` and `SpamEvidence`.

Methods have the loops and the field updates of the service's own code; each
is proved against a function or relation on values, and the theorems are about
those.

Where the code does something its comments do not say, the model follows the
code and a lemma gives the condition:

- An import batch promises that a child arriving before its parent still chains
  to it (`internal/service/import.go:89-95`). It does exactly when it has the
  anchor of the item the parent joins (`LateParent`). `EarlyRepliesSplit` is a
  batch that leaves its second early reply out; `OnlyReplySplits` one that leaves
  out even the first and only reply, as the parent answers a message in between.
- An item marks its message id as seen before its attachments are resolved, its
  parent is looked up and its row is inserted. When one of these fails, a later
  item with that id is reported a duplicate of a message that was never stored:
  `DuplicateIsReal` has the exact condition, `FalseDuplicate` a batch for each.
- A replace-style keyword store drops `$` tags that the protocol never shows,
  although it is meant to leave unobservable tags alone
  (`internal/service/keywords.go:117-120`): `DroppedUnseen`, `ScopedTagIsLost`.
- A move of messages within one folder always fails on the primary key, and a
  move of none within one folder loses the mod-sequence it took: `MoveCommits`.
- Of the documented address terms `a[:domain][/cidr]` and `mx[:domain][/cidr]`
  (`internal/senderauth/spf.go:155`) exactly those with a slash right after the
  name, such as `a/24`, are passed over: `PrefixNeedsColon`, `ShortFormRejects`.
- A CRLF that fails to be written at the very end of the data is not written by
  a retry, because there is nothing left to write, and one that was cut is doubled:
  `RetryCompletes`, `LostBreak`, `DoubledBreak`.
- A message whose evidence all leans one way scores exactly one half once its
  log-sum is below -700, the code's mark for "very strong confidence"
  (`internal/spam/bayes.go:89-91`), as both tails then read zero:
  `SpamScoresAbove`.

Notions that the proofs share:

- Where a query has no stated order, its rows come as a sequence that
  `Enumerates` the matching set, and every claim is for all such orders.
- `Evolves` (in `StoreRuns`) relates two states of one run. Synchronisation,
  UID discipline and the JMAP state string all follow from it.
- Clocks, the resolver, the byte store, the relay and the account's other
  services are parameters or environment steps.

## Model

| member | source | states |
|---|---|---|
| `MailTables.ProtocolFolderName` | internal/service/protocol_store.go:93-108 | every HTTP folder, known or not, is filed in one of the six default protocol folders |
| `MailTables.FolderNamesRoundTrip` | internal/service/protocol_store.go:694-721 | on the six default folders the HTTP and protocol names are inverse to each other, both ways |
| `Text.TrimIsExact` | internal/service/protocol_store.go:94 | trimming takes the white space off both ends and nothing else |
| `ServiceEffects.OtherNamesAreInbox` | internal/service/protocol_store.go:93-108 | names outside the six default folders file a message in the inbox and have no HTTP folder of their own |
| `StoreRuns.AddMembershipAdvances` | internal/service/protocol_store.go:672-689 | a committed filing of a message keeps the store invariant and every fact about earlier states |
| `StoreRuns.StoreAllAdvances` | internal/service/protocol_store.go:535-565 | a flag store keeps the invariant and every fact about earlier states |
| `StoreRuns.MoveAdvances` | internal/service/protocol_store.go:392-437 | a committed protocol move keeps the invariant and every fact about earlier states |
| `StoreRuns.MoveEmailAdvances` | internal/service/protocol_store.go:804-896 | a committed HTTP move keeps the invariant, whatever memberships the message had |
| `StoreRuns.PurgeAllAdvances` | internal/service/email.go:2574-2633 | purging keeps the invariant, and each folder that loses a row moves its mod-sequence |
| `StoreRuns.StepAdvances` | internal/service/protocol_store.go:392-896 | every transaction of the store, committed or not, keeps UIDs below NextUID, mod-sequences at most the highest and both distinct in a folder |
| `StoreRuns.RunAdvances` | internal/service/protocol_store.go:392-896 | the same between any two points of a run, with the row facts that sync and the JMAP state rest on |
| `StoreRuns.UidsNeverReused` | internal/service/protocol_store.go:405-412 | section 2.3.1.1 of RFC 3501: no (folder, UID) pair belongs to two messages at any two points of a run |
| `StoreRuns.CountersBoundRows` | internal/service/protocol_store.go:680-686 | in every reachable state UID < NextUID, ModSeq <= HighestModSeq, and both are distinct inside a folder |
| `StoreRuns.NewUidsExceedEarlier` | internal/service/protocol_store.go:405-412 | a membership that appears later has a UID above all those its folder held earlier |
| `StoreRuns.OldModSeqMeansUnchanged` | internal/service/protocol_store.go:546-554 | a row whose mod-sequence the client had already seen has the email, UID and flags it had then |
| `StoreRuns.SyncSound` | internal/service/protocol_store.go:392-565 | section 3.1 of RFC 7162: an old snapshot, cut to the live UIDs and overlaid with the rows of greater mod-sequence, is the folder |
| `StoreEffects.AddAllEffect` | internal/service/protocol_store.go:523-531 | the copy loop gives consecutive UIDs and mod-sequences in row order with the flags kept, and clashes exactly when a message is already in the target |
| `StoreEffects.MoveCommits` | internal/service/protocol_store.go:392-437 | a protocol move commits if and only if both folders exist and no moved message is already in the target; within one folder it changes nothing |
| `StoreEffects.MoveEffect` | internal/service/protocol_store.go:392-437 | a committed move takes each message and its flags from one folder to the other and files it in the HTTP model; no other row or message changes |
| `StoreEffects.StoreEffect` | internal/service/protocol_store.go:546-562 | STORE gives every row not skipped by UNCHANGEDSINCE the merged flags and a fresh mod-sequence, keeps UIDs and touches nothing else |
| `StoreEffects.MoveEmailCommits` | internal/service/protocol_store.go:804-817 | an HTTP move succeeds if and only if the folder is valid and the account owns the message |
| `StoreEffects.RelocateEffect` | internal/service/protocol_store.go:846-896 | afterwards the message has one membership in its mailbox, with the flags of one it had or of its HTTP state |
| `StoreEffects.MoveEmailRepairs` | internal/service/email.go:2671-2704 | from any state, a drifted one included, MoveEmail makes the two folder models agree on its message and touches no other |
| `StoreEffects.PurgeEffect` | internal/service/email.go:2574-2633 | purging removes exactly the messages and their memberships and bumps exactly the folders that lost one |
| `ServiceEffects.CopyEffect` | internal/service/protocol_store.go:510-533 | IMAP COPY commits if and only if both folders exist and no listed member of the source is in the target; then every listed member is copied, with consecutive UIDs and mod-sequences |
| `ServiceEffects.StoreFlagsEffect` | internal/service/protocol_store.go:535-565 | STORE commits if and only if the folder exists, flags every listed member, and moves the folder's mod-sequence by the number of rows not skipped |
| `ServiceEffects.PurgeMessagesEffect` | internal/service/protocol_store.go:464-508 | a purge by folder removes exactly the listed members, from every folder, and moves each folder's mod-sequence by the rows it lost |
| `ServiceEffects.AppendEffect` | internal/service/protocol_store.go:571-668 | when APPEND commits, and what it files: read and draft state from the flags in any case and the folder, membership flags exactly the trimmed system and scoped names, the folder's next UID and mod-sequence |
| `ServiceEffects.DeliverEffect` | internal/service/email.go:2150-2183 | a new message of a known mailbox is always filed, without flags, in the protocol folder of its HTTP folder; DMARC intake gets no membership |
| `ServiceEffects.CopyEmailEffect` | internal/service/jmap_helpers.go:42-98 | when a JMAP copy commits, and which state of its source the copy keeps |
| `ServiceEffects.BackfillEffect` | internal/service/protocol_store.go:79-87 | backfill commits if and only if source and home membership are missing, and adds exactly those |
| `ServiceEffects.MoveEmailCounts` | internal/service/protocol_store.go:846-896 | an HTTP move spends a UID and a mod-sequence of the home folder if and only if the message is new to it, one mod-sequence of each other folder that held it, and nothing else |
| `ServiceEffects.HttpFlagsAre` | internal/service/protocol_store.go:900-912 | without a membership to take flags from, they are those of the HTTP state: read, starred and draft |
| `FolderAgreement.StepAgrees` | internal/service/protocol_store.go:392-896 | every step except COPY, over the six default folders, keeps each message in exactly the protocol folder of its HTTP folder |
| `FolderAgreement.ModelsAgree` | internal/service/protocol_store.go:798-837 | the two folder models agree in every state such a run reaches |
| `FolderAgreement.CopyBreaksAgreement` | internal/service/protocol_store.go:510-533 | the hypothesis is needed: a committed IMAP COPY that finds a message ends the agreement, and one that finds none changes nothing |
| `JmapState.DecimalInjective` | internal/jmap/handler.go:1255 | different versions print differently |
| `JmapState.State` | internal/jmap/handler.go:1243-1256 | the handler's loop sums the mailbox's mod-sequences in whatever order the folders come |
| `JmapState.VersionAcross` | internal/jmap/handler.go:1251-1254 | the sum never decreases, and stands still only if no membership or stored flag of the mailbox changed |
| `JmapState.EqualStatesMeanUnchanged` | internal/jmap/handler.go:1243-1256 | section 5.1 of RFC 8620: equal state strings at two points of a run mean identical memberships and stored flags |
| `ProtocolStore.MergeFlags` | internal/service/protocol_store.go:732-758 | the map-editing loop computes replacement, union or difference of the flag sets |
| `ProtocolStore.ReportIsExact` | internal/service/protocol_store.go:546-561 | the result list of STORE names exactly the rows that were not skipped, with the values now stored |
| `ProtocolStore.MailStore.EnsureProtocolFolders` | internal/service/protocol_store.go:762-776 | creates the missing default folders and leaves existing ones as they are |
| `ProtocolStore.MailStore.AddFolderMembership` | internal/service/protocol_store.go:782-795 | one new row under the folder's counters, or no commit on a key clash |
| `ProtocolStore.MailStore.DeliverMessage` | internal/service/email.go:2150-2183 | the message and its membership are stored together or not at all |
| `ProtocolStore.MailStore.AppendProtocolMessage` | internal/service/protocol_store.go:571-668 | the append transaction is the model's append step |
| `ProtocolStore.MailStore.CopyToMailbox` | internal/service/jmap_helpers.go:42-98 | the JMAP copy transaction is the model's copy step |
| `ProtocolStore.MailStore.BackfillMessage` | internal/service/protocol_store.go:79-87 | one backfilled message is the model's backfill step |
| `ProtocolStore.MailStore.MoveProtocolMessages` | internal/service/protocol_store.go:392-437 | the loop over folder copies in memory, saved source first, is the model's move step |
| `ProtocolStore.MailStore.CopyProtocolMessages` | internal/service/protocol_store.go:510-533 | the copy transaction is the model's copy step |
| `ProtocolStore.MailStore.StoreProtocolFlags` | internal/service/protocol_store.go:535-565 | the flag store is the model's store step and reports what it changed |
| `ProtocolStore.MailStore.MoveEmailFolder` | internal/service/protocol_store.go:804-817 | the HTTP move transaction is the model's step, rolled back as a whole |
| `ProtocolStore.MailStore.RelocateFolderMembership` | internal/service/protocol_store.go:846-896 | the relocation is the model's, flags carried from the first membership found |
| `ProtocolStore.MailStore.PurgeProtocolMessages` | internal/service/protocol_store.go:464-508 | purging by folder is the model's purge step |
| `Calendar.DayIsAPeriod` | internal/service/email.go:2950 | two instants share a day counter exactly when they fall on one UTC day, of 86400 seconds |
| `Calendar.MonthIsAPeriod` | internal/service/email.go:2951 | all instants from the first of a month to now fall in that month's period |
| `Calendar.MonthPeriodIsCivil` | internal/service/email.go:2951 | an instant has the period of a civil month exactly when it falls in that month, by the closed form of the Gregorian calendar |
| `SendUsage.UsageTable.ReserveSendUsage` | internal/service/email.go:2969-2988 | the upsert adds one below the limit, starts at one without a row, and ignores limits that are not positive |
| `SendUsage.UsageTable.ReserveOutboundSend` | internal/service/email.go:2949-2967 | all four counters are charged, or the table is unchanged |
| `SendUsage.PurgeIsInvisible` | internal/service/email.go:2843-2846 | a purge changes neither whether a timely charge fits nor what it leaves, and a month row that stays keeps all its day rows |
| `SendUsage.NextConserves` | internal/service/email.go:2843-2988 | every counter row is the number of committed charges on it, and no later charge reaches a purged period |
| `SendUsage.DayIsSumOfMailboxes` | internal/service/email.go:2957-2960 | workspace:day is the sum of the workspace's mailbox day counters |
| `SendUsage.MonthIsSumOfDays` | internal/service/email.go:49-52 | a month row still present is the sum of its day rows: the 62-day purge took none of them first |
| `SendUsage.CountersConserved` | internal/service/email.go:2843-2988 | over every run with purges interleaved no counter exceeds its limit and both sums hold |
| `SendLimits.AcceptedWhileRoom` | internal/service/email.go:2949-2988 | in every run a timely send is accepted exactly while each UTC day and civil month it falls in, of its workspace and of its mailbox, holds fewer accepted sends than its positive limit there |
| `SendLimits.LimitHolds` | internal/service/email.go:2949-2988 | over every timely run under one positive limit a workspace or mailbox gets at most that many sends accepted in one UTC day or civil month, purges and other limits notwithstanding |
| `Scheduler.MailQueue.ClaimScheduled` | internal/service/email.go:2743-2756 | a claim marks the message pending and charges it, or changes nothing |
| `Scheduler.StepKeeps` | internal/service/email.go:2724-2774 | every interleaved step of workers, resends, deletions and purges keeps claims single and paid |
| `Scheduler.HandedOffOnce` | internal/service/email.go:2724-2774 | over any interleaving the scheduler hands each message to the relay at most once, paid by exactly one charge, which is on the enabled counters of that message's own workspace and mailbox |
| `Scheduler.CountersMatchCharges` | internal/service/email.go:2752 | every counter row equals the number of charges recorded on it |
| `Scheduler.ClaimChargesOnce` | internal/service/email.go:2743-2763 | a claim succeeds exactly when the message is still scheduled and each of its enabled counters is new or below its limit; it adds one to those counters, named, and to no other, and a refused claim changes nothing |
| `Scheduler.DeliverHandsOff` | internal/service/email.go:1692-1740 | with a relay the claimed message is handed off and carries its result, without one it is marked not configured; nothing else changes |
| `Scheduler.NoClaimIsLost` | internal/service/email.go:2724-2774 | over any interleaving every paid claim is still with a worker, was handed off, or came to a delivery without a relay |
| `Quota.MailTable.FindOldest` | internal/service/email.go:2886-2888 | the first active message in (created_at, id) order |
| `Quota.MailTable.EnforceQuota` | internal/service/email.go:2861-2899 | archives exactly the shortest prefix, oldest first, that fits; without a shared client it never runs out of mail; otherwise it fails and changes nothing exactly when all mail is not enough |
| `Quota.NextIsForced` | internal/service/email.go:2884-2896 | above the limit every fitting prefix contains the next oldest message |
| `Attachments.AttachmentStore.StageIncoming` | internal/service/email.go:2411-2447 | all uploads are kept, or a failed staging removes exactly what it uploaded wherever the delete succeeds |
| `Attachments.AttachmentStore.Append` | internal/service/protocol_store.go:600-668 | staged files are removed again when the transaction fails |
| `Attachments.AttachmentStore.Copy` | internal/service/jmap_helpers.go:79-91 | the copy shares the source's file ids |
| `Attachments.AttachmentStore.DeleteUnreferenced` | internal/service/email.go:2638-2665 | exactly the listed files that no row refers to and whose delete call succeeds are removed |
| `Attachments.AttachmentStore.Purge` | internal/service/protocol_store.go:487-501 | purged rows go, and with them exactly the deletable files no remaining row refers to |
| `Attachments.ApplyKeepsSound` | internal/service/email.go:2574-2665 | every service call keeps the bytes of every attachment row |
| `Attachments.ReferencedBytesSurvive` | internal/service/email.go:2574-2665 | in every reachable state each file id carried by an attachment row is in the byte store |
| `Attachments.PurgeDropsUnshared` | internal/service/email.go:2635-2664 | a purged file stays while another message carries it and goes with the last reference |
| `Attachments.FileIdIsKey` | internal/service/protocol_store.go:366-376 | the storage key names the file, and the file id only where there is no key |
| `Attachments.CopySucceeds` | internal/service/jmap_helpers.go:79-91 | in a sound store a copy succeeds if and only if the source exists and the id is unused |
| `Attachments.AppendSucceeds` | internal/service/protocol_store.go:600-668 | an append succeeds if and only if every upload did, nothing else fails and the id is unused; its rows carry the uploads in order |
| `Cidr.SplitCidr` | internal/senderauth/spf.go:205-210 | the argument is cut at its first slash and loses nothing else |
| `Cidr.MaskedIsLeadingBits` | internal/senderauth/spf.go:249-259 | masking bytes with the CIDR mask compares exactly the leading bits |
| `Cidr.MatchIsPrefixEquality` | internal/senderauth/spf.go:249-259 | a match is exactly a valid prefix length whose leading bits coincide |
| `Cidr.MatchIsEquivalence` | internal/senderauth/spf.go:249-259 | for each prefix length the match is an equivalence relation |
| `Cidr.MatchIsMonotone` | internal/senderauth/spf.go:249-259 | a match at one prefix length implies one at every shorter length |
| `Cidr.FullWidthIsEquality` | internal/senderauth/spf.go:249-259 | at full width the match is address equality |
| `Cidr.BareNetworkIsFullWidth` | internal/senderauth/spf.go:236-247 | a bare network matches as one with the full prefix length |
| `Cidr.V4Forms` | internal/senderauth/spf.go:222-230 | an IPv4 address is the same in its bare and its IPv4-mapped form, and has no other |
| `Cidr.AtoiReadsNumerals` | internal/senderauth/spf.go:249-253 | a prefix length printed in decimal is read back, with its sign |
| `Cidr.AtoiRefuses` | internal/senderauth/spf.go:249-253 | only digits, after at most one sign, are a number |
| `Cidr.IpMatchIsNetwork` | internal/senderauth/spf.go:212-232 | an ip4 or ip6 argument, with or without a prefix, matches exactly the peers of its family that share its leading bits |
| `Cidr.NetworkMatchIsNetwork` | internal/senderauth/spf.go:236-247 | an address of an `a` or `mx` host matches exactly the peers of its family that share its leading bits |
| `Spf.EvalSpf` | internal/senderauth/spf.go:52-133 | the term loop computes the evaluator's meaning and counts its includes |
| `Spf.IncludeBound` | internal/senderauth/spf.go:79-107 | an include evaluation at each depth spends at most ten per record and level |
| `Spf.MaxIncludesIsSum` | internal/senderauth/spf.go:10-15 | that bound at the top is 10 + 10^2 + ... + 10^10 |
| `Spf.WorkIsBounded` | internal/senderauth/spf.go:21-38 | section 4.6.4 of RFC 7208: on every DNS map, cyclic or not, evaluation ends within that many includes |
| `Spf.SimplifiedTerms` | internal/senderauth/spf.go:58-132 | dropping modifiers, unsupported terms and all that follows the first `all` keeps the verdict of a record, through its includes |
| `Spf.SimplificationPreservesMeaning` | internal/senderauth/spf.go:21-153 | simplifying every record of the DNS changes no verdict for any domain and peer |
| `Spf.FirstMatchDecides` | internal/senderauth/spf.go:119-132 | among terms that need no DNS the first that matches gives its qualifier's verdict |
| `SpfTerms.TenMechanisms` | internal/senderauth/spf.go:82-113 | section 4.6.4 of RFC 7208: the eleventh DNS mechanism that evaluation of a record gets to is a permerror; before it `a` and `mx` are looked up and `include` is evaluated one level down, an inner pass matching, inner errors propagating, anything else not matching |
| `SpfTerms.PrefixNeedsColon` | internal/senderauth/spf.go:74-78 | of the documented address terms, with any qualifier, those with a slash right after the name are ignored and all others are looked up with what follows the colon |
| `SpfTerms.ShortFormRejects` | internal/senderauth/spf.go:155-205 | the comment's promise fails: a peer in the /24 of the domain's address is rejected by `a/24 -all` and accepted by `a:/24 -all` |
| `SpfMeaning.FieldParses` | internal/senderauth/spf.go:65-78 | every supported mechanism, with each qualifier, is read back as it is written and gives the verdict of its qualifier |
| `SpfMeaning.NetworkTermDecides` | internal/senderauth/spf.go:83-132 | an ip4 or ip6 term that is reached ends with its qualifier's verdict exactly for the peers of its network, and is passed over for all others |
| `SpfMeaning.AllTermDecides` | internal/senderauth/spf.go:83-130 | an `all` that is reached decides for every peer |
| `SpfMeaning.HostTermDecides` | internal/senderauth/spf.go:89-203 | an `a` or `mx` that is reached within the limit looks up the named host, or else the domain; a failed lookup is a temperror, a peer near an address found gets the qualifier's verdict, and an exchange without an address is passed over |
| `SpfMeaning.FirstSpfRecord` | internal/senderauth/spf.go:40-48 | the record evaluated is the first v=spf1 one |
| `SpfMeaning.RecordOfDomain` | internal/senderauth/spf.go:21-38 | how a missing domain, a missing answer, a failed lookup and a missing record end, at the top and as an include |
| `SpfMeaning.PrefixRecordPasses` | internal/senderauth/spf.go:52-133 | a domain that publishes `v=spf1 ip4:<network> -all` passes exactly the peers of that network and fails all others |
| `TxtCache.Verifier.Store` | internal/senderauth/senderauth.go:238-247 | the second critical section inserts the answer and evicts the oldest name when full |
| `TxtCache.InsertKeepsOrder` | internal/senderauth/senderauth.go:238-247 | the queue lists the cached names, each once, and at most 1024; eviction never meets an empty queue |
| `TxtCache.StepKeeps` | internal/senderauth/senderauth.go:216-249 | any interleaving of the two critical sections keeps this and ties each entry to a finished lookup |
| `TxtCache.BoundedAndFresh` | internal/senderauth/senderauth.go:213-249 | in every reachable state a hit repeats what the resolver answered for that name to a lookup begun less than its TTL before |
| `TxtCache.EvictionIsFifo` | internal/senderauth/senderauth.go:239-246 | inserting a new name drops the oldest only when full and keeps every other entry |
| `TxtCache.StoredIsServed` | internal/senderauth/senderauth.go:216-246 | a stored answer is served for 300 seconds, a stored `no record` for 60, from the begin of its lookup, and a transient answer is never stored |
| `TxtCache.NameStays` | internal/senderauth/senderauth.go:238-246 | a name outlives as many stores as the queue leaves it, 1023 for the newest, and keeps its answer unless a lookup of that name stores another |
| `TxtCache.LastHasMargin` | internal/senderauth/senderauth.go:238-246 | a name just inserted has 1023 stores left |
| `ImportBatch.EmailTable.FindThreadByMessageID` | internal/service/email.go:1815-1856 | the thread of the first candidate the account holds, whose thread-less parent is promoted |
| `ImportBatch.EmailTable.ImportEmails` | internal/service/import.go:74-286 | the batch loop computes the model's final table and report; other modes and batch sizes are rejected untouched |
| `ImportBatch.BatchThread` | internal/service/import.go:177-182 | the first candidate known in the batch wins |
| `ImportBatch.Wait` | internal/service/import.go:200-206 | unknown candidates wait for the message they name, the first thread winning |
| `ImportThreads.ThreadsAreDefined` | internal/service/import.go:161-223 | for a batch in any order the loop's three maps file each message under a definition that does not mention them |
| `ImportThreads.SharedThread` | internal/service/import.go:161-223 | two messages share a thread exactly when they have the same anchor |
| `ImportThreads.ReplyForest` | internal/service/import.go:161-223 | with parents first, two messages share a thread exactly when following their first in-batch candidates leads to the same root, and roots get distinct threads |
| `ImportThreads.RootIsRoot` | internal/service/import.go:166-182 | following candidates ends in a fixed message |
| `ImportThreads.LateParent` | internal/service/import.go:89-95 | a child that arrives before its parent shares its thread if and only if it has the anchor of the item the parent joins, the parent's own earlier candidate or else the first child |
| `ImportThreads.EarlyRepliesSplit` | internal/service/import.go:89-95 | the comment's promise fails: of two replies that arrive before their parent the second is left out |
| `ImportThreads.OnlyReplySplits` | internal/service/import.go:89-95 | it fails for a first and only reply too, when the parent answers a message that came in between |
| `ImportHeaders.ReplyDecides` | internal/service/import.go:166-182 | the first In-Reply-To id that an earlier item carries decides the thread, whatever References says |
| `ImportHeaders.NewestReferenceDecides` | internal/service/import.go:172-182 | otherwise the last reference that an earlier item carries does |
| `ImportHeaders.StoredReplyDecides` | internal/service/email.go:1815-1856 | with no relative in the batch, the first In-Reply-To id the account holds decides, by its oldest row |
| `ImportHeaders.StoredReferenceDecides` | internal/service/email.go:1815-1856 | and otherwise the last reference the account holds |
| `ImportHeaders.UnansweringDecides` | internal/service/import.go:190-199 | a message that cites nothing known joins the first waiting reply's thread, or starts its own |
| `ImportReport.CountsAddUp` | internal/service/import.go:116-127 | one result an item, in order, with counters that count them, and one row an imported item |
| `ImportReport.HeldAfterBatch` | internal/service/import.go:138-266 | the keys held after a batch, by the input alone: those held before and those whose marking item reached the insert and was stored |
| `ImportReport.StatusByInput` | internal/service/import.go:129-266 | the status reported of an item with a message id, by the input alone |
| `ImportReport.DuplicateIsReal` | internal/service/import.go:138-159 | a later item with a marked key is reported duplicate, and truthfully if and only if the marking item's attachments resolved, its parent lookup worked or was not needed, and its insert was stored, or the key was held before |
| `ImportReport.FalseDuplicate` | internal/service/import.go:153-195 | for each of the three mishaps a batch of two whose second item is called a duplicate of a message that is nowhere |
| `ImportReport.UnadmittedFails` | internal/service/import.go:129-137 | an item without a sender or a known mailbox is reported failed and stores nothing |
| `ImportReport.UndedupedStatus` | internal/service/import.go:138-266 | the status of an item without a message id, or of a batch without deduplication |
| `LineWriter.Writer.Write` | internal/mailmime/mailmime.go:444-472 | the write loop, with its error and short-write exits, computes the model's outcome |
| `LineWriter.CompleteWrite` | internal/mailmime/mailmime.go:449-471 | to a destination that accepts everything it adds exactly the wrapped text and reports every byte |
| `LineWriter.WrapAppends` | internal/mailmime/mailmime.go:450-456 | wrapping two pieces in turn is wrapping their concatenation |
| `LineWriter.ChunkingIsInvisible` | internal/mailmime/mailmime.go:444-472 | for every sequence of writes the output depends only on the concatenated input and each call reports its length |
| `LineWriter.WrapRoundTrip` | internal/mailmime/mailmime.go:464-469 | section 6.8 of RFC 2045: CRLF after each full line and no longer line, and removing them gives the input back |
| `LineWriter.DecoderSeesInput` | internal/mailmime/mailmime.go:464-469 | dropping CR and LF gives an input without them back, from any column |
| `LineWriter.Interrupted` | internal/mailmime/mailmime.go:458-467 | at any failure the reported count and the column describe what the destination holds, up to the bytes of one broken CRLF |
| `LineWriter.RetryCompletes` | internal/mailmime/mailmime.go:458-469 | a retry of the unreported bytes completes the text if and only if the failure cost no line break |
| `LineWriter.LostBreak` | internal/mailmime/mailmime.go:464-469 | a line of 76 bytes whose break is refused stays without it after the retry |
| `LineWriter.DoubledBreak` | internal/mailmime/mailmime.go:464-469 | a break cut after its CR is written again whole by the retry |
| `FlagNames.SplitProtocolFlags` | internal/service/keywords.go:22-35 | system and scoped names stay with the membership, the others are tags, in order |
| `Keywords.IsIMAPKeyword` | internal/service/keywords.go:41-56 | the byte loop accepts exactly the non-empty names up to 255 bytes without controls and specials |
| `Keywords.ExpressibleIsAtom` | internal/service/keywords.go:37-56 | section 9 of RFC 3501: those names are exactly the atoms of its grammar, with bytes above 127 let through |
| `Keywords.FoldKeepsExpressible` | internal/service/keywords.go:41-56 | changing case neither makes nor breaks a keyword |
| `Keywords.NormalizeKeywords` | internal/service/keywords.go:150-166 | the loop computes the trimmed, case-distinct tag names |
| `Keywords.NormalizedIsClean` | internal/service/keywords.go:150-166 | no two names alike up to case, none blank or reserved |
| `Keywords.NormalizedListsRequested` | internal/service/keywords.go:148-166 | a tag name is listed exactly when the client sent it, up to case and outer space |
| `Keywords.NormalizedKeepsFirst` | internal/service/keywords.go:150-166 | each name keeps the first spelling of its case-folded group, and the names the order of the keywords |
| `Keywords.SplitKeepsNames` | internal/service/keywords.go:22-35 | splitting off the membership's flags first changes no tag name |
| `Keywords.TagStore.FindOrCreateLabel` | internal/service/keywords.go:284-298 | any live tag with that name up to case, or a new one when there is none |
| `Keywords.TagStore.ReleaseKeywords` | internal/service/keywords.go:226-258 | drops from the members exactly the unlisted tags IMAP could have named |
| `Keywords.TagStore.SetProtocolKeywords` | internal/service/keywords.go:121-146 | the service call is the mode's relation on the folder's members; a missing mailbox or folder changes nothing |
| `Keywords.AttachAdds` | internal/service/keywords.go:198-212 | attaching only adds, and every member ends with every listed tag |
| `Keywords.AddIsExact` | internal/service/keywords.go:191-193 | add: members gain the listed tags and nothing else |
| `Keywords.RemoveIsExact` | internal/service/keywords.go:216-222 | remove: exactly the listed live tags leave the members |
| `Keywords.ReplaceIsExact` | internal/service/keywords.go:117-120 | replace: a member carries a tag of an IMAP name if and only if the name was listed |
| `Keywords.ReplaceSpares` | internal/service/keywords.go:226-258 | replace leaves unlisted tags that IMAP cannot name and keeps listed ones |
| `Keywords.OthersAreUntouched` | internal/service/keywords.go:168-194 | messages outside the folder and tags of other accounts are untouched, and no tag is deleted or renamed |
| `TagRuns.HistoryIsHealthy` | internal/service/email.go:1141-1194 | at every point of a history of keyword changes, tag edits over HTTP and purges each mapping names a live tag |
| `TagRuns.TagsAreKept` | internal/service/keywords.go:111-119 | over a whole history no tag is lost or renamed, and only a deletion over HTTP ends one: emptying a tag never does |
| `TagRuns.RemoveUndoesAdd` | internal/service/keywords.go:198-222 | at any point of a history, removing names that no member had before they were added restores every mapping |
| `Keywords.AttachKeepsUnambiguous` | internal/service/keywords.go:279-298 | no change creates a second tag for a name |
| `Keywords.StoreThenFetch` | internal/service/keywords.go:65-83 | a fetch after a replace shows exactly the listed names that IMAP can carry, up to case |
| `Keywords.DroppedUnseen` | internal/service/keywords.go:117-120 | what replace takes from a member was visible to the client if and only if its name is not scoped |
| `Keywords.ScopedTagIsLost` | internal/service/keywords.go:224-258 | the comment's promise fails: an empty replace drops a `$` tag the client never saw |
| `Bayes.MemStore.Incr` | internal/spam/store.go:58-76 | counts and totals move by delta, floored at zero, once for each listed hash |
| `Bayes.TrainingIsSound` | internal/spam/store.go:58-76 | no history, unlearning included, drives a count below zero |
| `Bayes.UnlearnUndoesLearn` | internal/spam/store.go:58-76 | unlearning a message right after learning it restores every count and total |
| `Bayes.LearnedMoves` | internal/spam/store.go:58-76 | learning adds the message's mass to its class and delta to its total, unlearning takes both down to zero at most, and the other class stays |
| `Bayes.SmoothedIsProper` | internal/spam/bayes.go:43-49 | a smoothed probability lies strictly inside (0, 1), so both logarithms exist, and exchanging the classes complements it |
| `Bayes.SmoothedFavours` | internal/spam/bayes.go:43-49 | a token speaks for spam if and only if it is more frequent in spam than in ham |
| `SpamEvidence.SmoothedShrinks` | internal/spam/bayes.go:43-49 | the smoothed probability keeps the part (1 + fw n) / (1 + fw n + fw) of the frequency ratio's distance from one half |
| `SpamEvidence.EvidenceIsStrong` | internal/spam/bayes.go:38-56 | the probabilities that take part are those of the seen tokens below 0.4 or above 0.6, each once, in the order of the message |
| `SpamEvidence.EvidenceCounts` | internal/spam/bayes.go:50-56 | and minTokens is compared with the number of those tokens |
| `SpamEvidence.NoVerdict` | internal/spam/bayes.go:13-60 | no tokens, too few learns of a class or too few strong tokens score one half |
| `ExpSeries.TermIsPoisson` | internal/spam/bayes.go:93-99 | the running term of the series is t0 * m^i / i! |
| `ExpSeries.SeriesDecreases` | internal/spam/bayes.go:93-99 | the partial sum exp(x) * (1 + m + ... ) with m = -x does not decrease with x, from the laws of the exponential |
| `SpamEvidence.ScoreIsTails` | internal/spam/bayes.go:66-104 | the score is one half plus half the difference of two Poisson tails, given by powers and factorials |
| `SpamEvidence.SpamScoresAbove` | internal/spam/bayes.go:61-91 | evidence that all leans to spam scores above one half if and only if its log-sum is at least -700; below that the score falls back to one half |
| `SpamEvidence.SpamIsAbove` | internal/spam/bayes.go:13-104 | so does a whole message whose seen tokens are all more frequent in spam, with at least minTokens strong ones; a thousand of them never reach the cut-off |
| `Bayes.TailIncreases` | internal/spam/bayes.go:84-104 | the tail does not decrease with the log-sum, across all its cut-offs |
| `Bayes.SpamIsNotHam` | internal/spam/bayes.go:61-70 | a message all of whose known tokens are more frequent in spam never scores below one half: the tails are the right way round |
| `Bayes.InvChiSq` | internal/spam/bayes.go:84-104 | the loop sums exactly df terms of the series, with its three cut-offs |
| `Bayes.TailIsProbability` | internal/spam/bayes.go:84-104 | the series is a probability |
| `Bayes.Classify` | internal/spam/bayes.go:13-78 | the whole scorer computes the model's verdict, guards included |
| `Bayes.VerdictComplements` | internal/spam/bayes.go:57-77 | complementing the evidence complements the verdict, which lies in [0, 1] before the final clamps |
| `Bayes.ClassificationComplements` | internal/spam/bayes.go:13-78 | exchanging the two counts of every token and the two totals turns p into 1 - p, and p is in [0, 1] |
| `Bayes.HistoriesComplement` | internal/spam/bayes.go:13-78 | training with every label exchanged turns every score p into 1 - p |

## Left out

- UID and mod-sequence counters are unbounded; the wrap of the 32- and 64-bit columns is not modelled.
- Folder rows are identified by mailbox and name. JMAP Mailbox/set, which creates, renames and deletes folder rows outside the locked path, and UIDVALIDITY are not part of the model.
- Row locks are modelled by atomic steps. That PostgreSQL serialises the transactions is assumed.
- Database, network and storage errors other than those named (key clashes, refused reservations, failed uploads and deletes, failed lookups) are not part of the model; a transaction that fails for another reason rolls back like a key clash.
- Flags are a set: the sorted JSON array in which they are stored is not modelled, nor JSON that does not parse.
- Message fields other than account, mailbox, folder, read, starred, draft and DMARC intake, and the spam and trash timestamps of a folder change, are not modelled.
- Realtime notices, spam training on moves, push notifications and forwarding.
- String operations fold and trim ASCII only; names and ids are byte strings.
- Scheduler.HandedOffOnce: claims of the scheduler only; a resend by the user is an environment step that may deliver the message again, as in the service.
- SendLimits.LimitHolds: a reservation is stamped at most 31 days behind the clock of any purge.
- SendUsage.CountersConserved: all four limits are positive and constant (`SendLimits` needs neither), and a reservation is stamped at most 31 days behind the clock of any purge; a day row whose month row the purge already took is not compared with anything.
- Quota.MailTable.EnforceQuota: the workspace of a message stands for the join over live mailboxes, and message ids are numbers so that they are ordered.
- Attachments.ReferencedBytesSurvive: each service call is one step, so a message stored between the reference count and the deletion of another purge is not modelled; ids are the trimmed ones the byte store issues.
- Attachments.AttachmentStore.Append: the message's own columns and MIME parsing are not part of it.
- ImportReport.DuplicateIsReal: rows inserted by a concurrent import are not in the model's table; after a raced insert the key is held by the rival's row.
- Spf.WorkIsBounded: timeouts are not modelled; they only end an evaluation earlier.
- Spf.SimplificationPreservesMeaning: a TXT string is the sequence of its whitespace-separated fields, and address parsing is a parameter.
- TxtCache.BoundedAndFresh: time is an integer that lookups carry; nothing is assumed about its order between lookups.
- ImportThreads.ReplyForest: message ids are taken as normalised; the service also normalises them, and twice for the batch map. Recipients, bodies and the quota pass after a batch are not part of the model.
- ImportBatch.EmailTable.ImportEmails: rows with equal creation times come in the order of the table.
- Keywords.TagStore.SetProtocolKeywords: the email and label tables are reduced to what tags need.
- Bayes.ClassificationComplements: real numbers, without rounding; the logarithm is only known to exist for positive numbers and the exponential to be positive, and the per-class minimum of learns is positive. With a minimum of zero the service may divide by zero.
- Bayes.SpamIsNotHam: the logarithm and the exponential are parameters; that the one does not decrease and that the other is positive, turns sums into products and is at least each partial sum of its series are hypotheses about them.
- SpamEvidence.SpamIsAbove: that the logarithm grows strictly and is zero at one, and that it is at least -0.7 at one half, are hypotheses about it too.
- Bayes.Classify: tokenising is a parameter (hashes and weights); store errors, which score 0.5, do not occur in memory. Redis batching, learned-digest bookkeeping and the recording of user moves are left out.
- POP3 sessions, the MX recipient split, JMAP filters and paging, custom domains, DKIM and DMARC evaluation, charset decoding and HTTP routes: not modelled.
