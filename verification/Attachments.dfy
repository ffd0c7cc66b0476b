/** Attachment rows and the byte store they point into. Copies of a message
    share files; a file goes when the last row referring to it is purged. */
module Attachments {
  import opened Text
  import opened Wrappers

  type EmailId = string
  type FileId = string

  datatype Attachment = Attachment(storageKey: Option<FileId>, file: Option<FileId>)

  /** The byte-store id a row carries, or "". */
  function FileIdOf(a: Attachment): FileId {
    if a.storageKey.Some? && Trim(a.storageKey.value) != "" then Trim(a.storageKey.value)
    else if a.file.Some? then Trim(a.file.value)
    else ""
  }

  /** Ids the byte store issues are non-blank and carry no outer space. */
  predicate Canonical(id: FileId) {
    id != "" && Trim(id) == id
  }

  predicate CanonicalRow(a: Attachment) {
    (a.storageKey.Some? ==> Canonical(a.storageKey.value)) && (a.file.Some? ==> Canonical(a.file.value))
  }

  type Rows = map<EmailId, seq<Attachment>>

  predicate RefersTo(a: Attachment, id: FileId) {
    a.storageKey == Some(id) || a.file == Some(id)
  }

  predicate Referenced(rows: Rows, id: FileId) {
    exists email :: email in rows && exists a :: a in rows[email] && RefersTo(a, id)
  }

  function FileIds(attachments: seq<Attachment>): set<FileId> {
    set a | a in attachments && FileIdOf(a) != "" :: FileIdOf(a)
  }

  /** The file ids of the listed messages. */
  function FilesOf(rows: Rows, ids: seq<EmailId>): set<FileId> {
    set id, file | id in ids && id in rows && file in FileIds(rows[id]) :: file
  }

  /** The outcome of one upload: a new id, a failed call or a missing body. */
  datatype Upload = Uploaded(id: FileId) | UploadFailed | NoContent

  function UploadedIds(uploads: seq<Upload>): set<FileId> {
    set u | u in uploads && u.Uploaded? :: u.id
  }

  /** The uploads that were made before staging gave up. */
  function Attempted(uploads: seq<Upload>): seq<Upload> {
    if uploads == [] || !uploads[0].Uploaded? then [] else [uploads[0]] + Attempted(uploads[1..])
  }

  predicate StagesAll(uploads: seq<Upload>) {
    forall u :: u in uploads ==> u.Uploaded?
  }

  function Staged(ids: seq<FileId>): seq<Attachment> {
    seq(|ids|, i requires 0 <= i < |ids| => Attachment(Some(ids[i]), Some(ids[i])))
  }

  /** Storing a message renders it, so every file its rows carry must open. */
  predicate Renders(files: set<FileId>, attachments: seq<Attachment>) {
    forall a :: a in attachments ==> FileIdOf(a) != "" && FileIdOf(a) in files
  }

  // ---- one service call, as a function ----

  datatype Store = Store(rows: Rows, files: set<FileId>)

  /** `fails` stands for any reason, besides a file that does not open, for which
      the transaction rolls back; ids outside `deletable` fail to be deleted. */
  datatype Call =
    | Append(id: EmailId, uploads: seq<Upload>, fails: bool, deletable: set<FileId>)
    | Persist(id: EmailId, attachments: seq<Attachment>)
    | Copy(source: EmailId, id: EmailId)
    | Purge(ids: seq<EmailId>, deletable: set<FileId>)

  function Ids(uploads: seq<Upload>): seq<FileId>
    requires StagesAll(uploads)
  {
    seq(|uploads|, i requires 0 <= i < |uploads| => assert uploads[i] in uploads; uploads[i].id)
  }

  /** Delete calls for ids that the failed call uploaded. */
  function Cleaned(files: set<FileId>, uploaded: set<FileId>, deletable: set<FileId>): set<FileId> {
    files + uploaded - (uploaded * deletable)
  }

  function Apply(s: Store, call: Call): Store {
    match call
    case Append(id, uploads, fails, deletable) =>
      if !StagesAll(uploads) then s.(files := Cleaned(s.files, UploadedIds(Attempted(uploads)), deletable))
      else if fails || id in s.rows || !Renders(s.files + UploadedIds(uploads), Staged(Ids(uploads))) then
        s.(files := Cleaned(s.files, UploadedIds(uploads), deletable))
      else Store(s.rows[id := Staged(Ids(uploads))], s.files + UploadedIds(uploads))
    case Persist(id, attachments) =>
      if id in s.rows || !Renders(s.files, attachments) then s else s.(rows := s.rows[id := attachments])
    case Copy(source, id) =>
      if source !in s.rows || id in s.rows || !Renders(s.files, s.rows[source]) then s
      else s.(rows := s.rows[id := s.rows[source]])
    case Purge(ids, deletable) =>
      var left := s.rows - (set id | id in ids);
      Store(left, s.files - (set file | file in FilesOf(s.rows, ids) && file in deletable && !Referenced(left, file)))
  }

  class AttachmentStore {
    var rows: Rows
    var files: set<FileId>

    function View(): Store
      reads this
    {
      Store(rows, files)
    }

    /** Every file id carried by a row is in the byte store. */
    ghost predicate Valid()
      reads this
    {
      Sound(rows, files)
    }

    constructor (existing: set<FileId>)
      ensures Valid() && rows == map[] && files == existing
    {
      rows, files := map[], existing;
    }

    /** One delete call per id; those outside `deletable` fail and are ignored. */
    method DeleteAll(ids: seq<FileId>, deletable: set<FileId>)
      modifies this`files
      ensures files == old(files) - ((set id | id in ids) * deletable)
    {
      for i := 0 to |ids|
        invariant files == old(files) - ((set id | id in ids[..i]) * deletable)
      {
        assert ids[..i + 1] == ids[..i] + [ids[i]];
        if ids[i] in deletable {
          files := files - {ids[i]};
        }
      }
      assert ids[..|ids|] == ids;
    }

    /** StageIncomingAttachments: all uploads, or none of them kept. A failed
        staging whose deletes succeed leaves the store as it was. */
    method StageIncoming(uploads: seq<Upload>, deletable: set<FileId>) returns (ok: bool, staged: seq<FileId>)
      requires Valid() && FreshUploads(files, uploads)
      modifies this`files
      ensures Valid()
      ensures ok <==> StagesAll(uploads)
      ensures ok ==> |staged| == |uploads| && (forall i :: 0 <= i < |uploads| ==> staged[i] == uploads[i].id)
      ensures ok ==> files == old(files) + UploadedIds(uploads)
      ensures !ok ==> old(files) <= files <= old(files) + (UploadedIds(Attempted(uploads)) - deletable)
    {
      AttemptedWithin(uploads);
      ok, staged := Stage(uploads, deletable);
    }

    /** The staging loop and its cleanup. */
    method Stage(uploads: seq<Upload>, deletable: set<FileId>) returns (ok: bool, staged: seq<FileId>)
      modifies this`files
      ensures ok <==> StagesAll(uploads)
      ensures ok ==> |staged| == |uploads| && (forall i :: 0 <= i < |uploads| ==> staged[i] == uploads[i].id)
      ensures ok ==> files == old(files) + UploadedIds(uploads)
      ensures !ok ==> files == Cleaned(old(files), UploadedIds(Attempted(uploads)), deletable)
    {
      hide Attempted;
      staged := [];
      for i := 0 to |uploads|
        invariant |staged| == i && (forall j :: 0 <= j < i ==> uploads[j].Uploaded? && staged[j] == uploads[j].id)
        invariant files == old(files) + UploadedIds(uploads[..i])
        invariant (set id | id in staged) == UploadedIds(uploads[..i])
        invariant Attempted(uploads) == uploads[..i] + Attempted(uploads[i..])
      {
        assert uploads[..i + 1] == uploads[..i] + [uploads[i]];
        assert uploads[i..][1..] == uploads[i + 1..];
        if !uploads[i].Uploaded? {
          AttemptedStops(uploads, i);
          DeleteAll(staged, deletable);
          return false, staged;
        }
        AttemptedStep(uploads, i);
        files := files + {uploads[i].id};
        staged := staged + [uploads[i].id];
      }
      assert uploads[..|uploads|] == uploads;
      ok := true;
    }

    /** The transaction that stores a message with its attachment rows. */
    method Persist(id: EmailId, attachments: seq<Attachment>) returns (ok: bool)
      modifies this`rows
      ensures ok <==> id !in old(rows) && Renders(files, attachments)
      ensures View() == Apply(old(View()), Call.Persist(id, attachments))
      ensures rows == if ok then old(rows)[id := attachments] else old(rows)
      ensures old(Valid()) && (forall a :: a in attachments ==> CanonicalRow(a)) ==> Valid()
    {
      ok := id !in rows && Renders(files, attachments);
      if ok {
        rows := rows[id := attachments];
      }
    }

    /** Upload, then store; when storing fails the uploads are deleted again.
        `fails` stands for every other reason the transaction may have. */
    method Append(id: EmailId, uploads: seq<Upload>, fails: bool, deletable: set<FileId>) returns (ok: bool)
      requires Valid() && FreshUploads(files, uploads)
      modifies this
      ensures Valid()
      ensures View() == Apply(old(View()), Call.Append(id, uploads, fails, deletable))
      ensures ok <==> StagesAll(uploads) && !fails && id !in old(rows)
      ensures ok ==> files == old(files) + UploadedIds(uploads)
      ensures ok ==> rows == old(rows)[id := Staged(Ids(uploads))]
      ensures !ok ==> rows == old(rows) && old(files) <= files <= old(files) + (UploadedIds(uploads) - deletable)
      ensures !ok && UploadedIds(uploads) <= deletable ==> files == old(files)
    {
      AttemptedWithin(uploads);
      var staged;
      ok, staged := Stage(uploads, deletable);
      if !ok {
        return;
      }
      assert staged == Ids(uploads);
      StagedRenders(files, uploads, staged);
      ok := false;
      if !fails {
        ok := Persist(id, Staged(staged));
      }
      if !ok {
        assert (set file | file in staged) == UploadedIds(uploads);
        DeleteAll(staged, deletable);
      }
    }

    /** CopyEmail: the copy's rows carry the source's file ids. */
    method Copy(source: EmailId, id: EmailId) returns (ok: bool)
      requires Valid()
      modifies this`rows
      ensures Valid()
      ensures View() == Apply(old(View()), Call.Copy(source, id))
      ensures ok ==> source in old(rows) && rows == old(rows)[id := old(rows)[source]]
      ensures !ok ==> rows == old(rows)
    {
      if source !in rows {
        return false;
      }
      ok := Persist(id, rows[source]);
    }

    /** Drop the bytes no remaining row refers to. */
    method DeleteUnreferenced(ids: seq<FileId>, deletable: set<FileId>)
      modifies this`files
      ensures files == old(files) - Droppable(rows, ids, deletable)
    {
      var seen: set<FileId> := {};
      for i := 0 to |ids|
        invariant seen == (set j | 0 <= j < i && Trim(ids[j]) != "" :: Trim(ids[j]))
        invariant files == old(files) - (set id | id in seen && !Referenced(rows, id) && id in deletable)
      {
        var id := Trim(ids[i]);
        if id == "" || id in seen {
          continue;
        }
        seen := seen + {id};
        if !Referenced(rows, id) && id in deletable {
          files := files - {id};
        }
      }
      forall id ensures id in Droppable(rows, ids, deletable) <==>
          id in seen && !Referenced(rows, id) && id in deletable {
      }
    }

    /** Permanently remove messages, then the files nothing else refers to. */
    method Purge(ids: seq<EmailId>, deletable: set<FileId>)
      requires Valid()
      modifies this
      ensures Valid()
      ensures View() == Apply(old(View()), Call.Purge(ids, deletable))
      ensures rows == old(rows) - (set id | id in ids)
      ensures files <= old(files)
      ensures forall file :: file in FilesOf(old(rows), ids) && file in deletable && !Referenced(rows, file) ==>
              file !in files
      ensures forall file :: file in old(files) && file !in files ==>
                file in FilesOf(old(rows), ids) && file in deletable && !Referenced(rows, file)
    {
      var dropped: seq<FileId> := [];
      for i := 0 to |ids|
        invariant rows == old(rows) - (set id | id in ids[..i])
        invariant files == old(files)
        invariant forall file :: file in dropped <==> file in FilesOf(old(rows), ids[..i])
      {
        assert ids[..i + 1] == ids[..i] + [ids[i]];
        FilesOfMore(old(rows), ids[..i], ids[i]);
        if ids[i] in rows {
          var more := CarriedFiles(rows[ids[i]]);
          dropped := dropped + more;
          rows := rows - {ids[i]};
        }
      }
      assert ids[..|ids|] == ids;
      FilesCanonical(old(rows), files, ids);
      DroppedCanonical(rows, dropped, deletable);
      DeleteUnreferenced(dropped, deletable);
    }
  }

  method CarriedFiles(attachments: seq<Attachment>) returns (files: seq<FileId>)
    ensures forall file :: file in files <==> file in FileIds(attachments)
  {
    files := [];
    for i := 0 to |attachments|
      invariant forall file :: file in files <==> file in FileIds(attachments[..i])
    {
      assert attachments[..i + 1] == attachments[..i] + [attachments[i]];
      FileIdsMore(attachments[..i], attachments[i]);
      if FileIdOf(attachments[i]) != "" {
        files := files + [FileIdOf(attachments[i])];
      }
    }
    assert attachments[..|attachments|] == attachments;
  }

  ghost predicate Sound(rows: Rows, files: set<FileId>) {
    forall email, a :: email in rows && a in rows[email] ==>
        CanonicalRow(a) && FileIdOf(a) != "" && FileIdOf(a) in files
  }

  /** Uploads yield fresh canonical ids. */
  ghost predicate FreshUploads(files: set<FileId>, uploads: seq<Upload>) {
    forall u :: u in uploads && u.Uploaded? ==> Canonical(u.id) && u.id !in files
  }

  ghost function Droppable(rows: Rows, ids: seq<FileId>, deletable: set<FileId>): set<FileId> {
    set i | 0 <= i < |ids| && Trim(ids[i]) != "" && !Referenced(rows, Trim(ids[i]))
        && Trim(ids[i]) in deletable :: Trim(ids[i])
  }

  lemma FileIdsMore(attachments: seq<Attachment>, last: Attachment)
    ensures FileIds(attachments + [last]) == FileIds(attachments) + if FileIdOf(last) != ""
            then {FileIdOf(last)} else {}
  {
    hide FileIdOf;
    forall a ensures a in attachments + [last] <==> a in attachments || a == last {
    }
  }

  lemma FilesOfMore(rows: Rows, ids: seq<EmailId>, last: EmailId)
    ensures FilesOf(rows, ids + [last]) == FilesOf(rows, ids) + if last in rows then FileIds(rows[last]) else {}
    ensures last in ids && last in rows ==> FileIds(rows[last]) <= FilesOf(rows, ids)
  {
    hide FileIds;
    forall id ensures id in ids + [last] <==> id in ids || id == last {
    }
  }

  lemma FilesCanonical(rows: Rows, files: set<FileId>, ids: seq<EmailId>)
    requires Sound(rows, files)
    ensures forall file :: file in FilesOf(rows, ids) ==> Canonical(file)
  {
    forall file | file in FilesOf(rows, ids)
      ensures Canonical(file)
    {
      var id :| id in ids && id in rows && file in FileIds(rows[id]);
      var a :| a in rows[id] && FileIdOf(a) == file;
    }
  }

  lemma DroppedCanonical(rows: Rows, ids: seq<FileId>, deletable: set<FileId>)
    requires forall id :: id in ids ==> Canonical(id)
    ensures forall id :: id in Droppable(rows, ids, deletable) <==>
            id in ids && !Referenced(rows, id) && id in deletable
  {
    hide Referenced;
    forall id | id in ids && !Referenced(rows, id) && id in deletable
      ensures id in Droppable(rows, ids, deletable)
    {
      var i :| 0 <= i < |ids| && ids[i] == id;
      assert Trim(ids[i]) == id;
    }
    forall i | 0 <= i < |ids|
      ensures Trim(ids[i]) == ids[i]
    {
      assert ids[i] in ids;
    }
  }

  lemma AttemptedStops(uploads: seq<Upload>, i: nat)
    requires i < |uploads| && !uploads[i].Uploaded?
    requires Attempted(uploads) == uploads[..i] + Attempted(uploads[i..])
    ensures Attempted(uploads) == uploads[..i] && !StagesAll(uploads)
  {
    assert uploads[i] in uploads;
  }

  lemma {:induction false} AttemptedStep(uploads: seq<Upload>, i: nat)
    requires i < |uploads| && uploads[i].Uploaded?
    ensures Attempted(uploads[i..]) == [uploads[i]] + Attempted(uploads[i + 1..])
  {
    assert uploads[i..][1..] == uploads[i + 1..];
  }

  lemma {:induction false} AttemptedWithin(uploads: seq<Upload>)
    ensures forall u :: u in Attempted(uploads) ==> u in uploads && u.Uploaded?
    ensures UploadedIds(Attempted(uploads)) <= UploadedIds(uploads)
  {
    if uploads != [] {
      AttemptedWithin(uploads[1..]);
    }
  }

  lemma StagedRenders(files: set<FileId>, uploads: seq<Upload>, staged: seq<FileId>)
    requires |staged| == |uploads| && (forall i :: 0 <= i < |uploads| ==>
             uploads[i].Uploaded? && staged[i] == uploads[i].id)
    requires forall u :: u in uploads ==> Canonical(u.id) && u.id in files
    ensures Renders(files, Staged(staged))
    ensures forall a :: a in Staged(staged) ==> CanonicalRow(a)
    ensures forall id :: id in staged ==> id in UploadedIds(uploads)
  {
    forall a | a in Staged(staged)
      ensures CanonicalRow(a) && FileIdOf(a) != "" && FileIdOf(a) in files
    {
      var i :| 0 <= i < |staged| && Staged(staged)[i] == a;
      assert uploads[i] in uploads;
    }
    forall id | id in staged
      ensures id in UploadedIds(uploads)
    {
      var i :| 0 <= i < |staged| && staged[i] == id;
      assert uploads[i] in uploads;
    }
  }

  // ---- every run ----

  /** The byte store issues canonical ids that no stored file has. */
  ghost predicate Fresh(s: Store, call: Call) {
    && (call.Append? ==> FreshUploads(s.files, call.uploads))
    && (call.Persist? ==> forall a :: a in call.attachments ==> CanonicalRow(a))
  }

  lemma ReferencedStays(rows: Rows, file: FileId, email: EmailId, a: Attachment)
    requires email in rows && a in rows[email] && CanonicalRow(a) && FileIdOf(a) != "" && FileIdOf(a) == file
    ensures Referenced(rows, file)
  {
    assert RefersTo(a, file);
  }

  lemma ApplyKeepsSound(s: Store, call: Call)
    requires Sound(s.rows, s.files) && Fresh(s, call)
    ensures Sound(Apply(s, call).rows, Apply(s, call).files)
  {
    hide CanonicalRow, FileIdOf, Referenced, Trim;
    var t := Apply(s, call);
    match call
    case Copy(_, _) =>
    case Persist(_, _) =>
    case Purge(ids, deletable) =>
      forall email, a | email in t.rows && a in t.rows[email]
        ensures CanonicalRow(a) && FileIdOf(a) != "" && FileIdOf(a) in t.files
      {
        ReferencedStays(t.rows, FileIdOf(a), email, a);
      }
    case Append(id, uploads, _, deletable) =>
      AttemptedWithin(uploads);
      if id in t.rows && id !in s.rows {
        StagedIsCanonical(s.files, uploads);
      }
  }

  lemma StagedIsCanonical(files: set<FileId>, uploads: seq<Upload>)
    requires StagesAll(uploads) && FreshUploads(files, uploads)
    ensures forall a :: a in Staged(Ids(uploads)) ==> CanonicalRow(a)
  {
    forall a | a in Staged(Ids(uploads)) ensures CanonicalRow(a) {
      var i :| 0 <= i < |uploads| && Staged(Ids(uploads))[i] == a;
      assert uploads[i] in uploads;
    }
  }

  ghost predicate FreshRun(s: Store, calls: seq<Call>)
    decreases |calls|
  {
    calls == [] || (Fresh(s, calls[0]) && FreshRun(Apply(s, calls[0]), calls[1..]))
  }

  function Run(s: Store, calls: seq<Call>): Store
    decreases |calls|
  {
    if calls == [] then s else Run(Apply(s, calls[0]), calls[1..])
  }

  lemma {:induction false} RunKeepsSound(s: Store, calls: seq<Call>)
    requires Sound(s.rows, s.files) && FreshRun(s, calls)
    ensures Sound(Run(s, calls).rows, Run(s, calls).files)
    decreases |calls|
  {
    hide Apply, Fresh, Sound;
    if calls != [] {
      ApplyKeepsSound(s, calls[0]);
      RunKeepsSound(Apply(s, calls[0]), calls[1..]);
    }
  }

  /** In every reachable state the bytes behind every attachment row are there,
      whatever was copied, purged or failed before. */
  lemma ReferencedBytesSurvive(files: set<FileId>, calls: seq<Call>, email: EmailId, a: Attachment)
    requires FreshRun(Store(map[], files), calls)
    requires email in Run(Store(map[], files), calls).rows && a in Run(Store(map[], files), calls).rows[email]
    ensures FileIdOf(a) in Run(Store(map[], files), calls).files
  {
    RunKeepsSound(Store(map[], files), calls);
  }

  /** A purged file stays while another message carries it; it goes, when the
      delete call succeeds, once no remaining row refers to it. */
  lemma PurgeDropsUnshared(s: Store, ids: seq<EmailId>, deletable: set<FileId>, file: FileId)
    requires Sound(s.rows, s.files) && file in FilesOf(s.rows, ids)
    ensures (exists email :: email in s.rows && email !in ids && file in FileIds(s.rows[email])) ==>
              file in Apply(s, Call.Purge(ids, deletable)).files
    ensures (forall email, a :: email in s.rows && email !in ids && a in s.rows[email] ==> !RefersTo(a, file)) ==>
              (file in Apply(s, Call.Purge(ids, deletable)).files <==> file !in deletable)
  {
    var t := Apply(s, Call.Purge(ids, deletable));
    var id :| id in ids && id in s.rows && file in FileIds(s.rows[id]);
    assert file in s.files;
    if email :| email in s.rows && email !in ids && file in FileIds(s.rows[email]) {
      var a :| a in s.rows[email] && FileIdOf(a) == file;
      ReferencedStays(t.rows, file, email, a);
    }
  }

  // ---- what each call achieves ----

  /** The storage key names the file; a row without one, or with a blank one, is
      read by its file id; outer space never counts. */
  lemma FileIdIsKey(a: Attachment, key: FileId, file: FileId)
    ensures Canonical(key) ==> FileIdOf(a.(storageKey := Some(key))) == key
    ensures Canonical(file) && (a.storageKey.Some? ==> Trim(a.storageKey.value) == "") ==>
              FileIdOf(a.(file := Some(file))) == file
    ensures FileIdOf(a) == "" <==>
              (a.storageKey.Some? ==> Trim(a.storageKey.value) == "") && (a.file.Some? ==> Trim(a.file.value) == "")
  {
    hide Trim;
  }

  /** In a sound store a copy succeeds exactly when the source exists and the new
      id is unused: every file of the source still opens. The copy shares the
      files, and none is touched. */
  lemma CopySucceeds(s: Store, source: EmailId, id: EmailId)
    requires Sound(s.rows, s.files)
    ensures Apply(s, Call.Copy(source, id)) ==
            if source in s.rows && id !in s.rows then Store(s.rows[id := s.rows[source]], s.files) else s
  {
    hide FileIdOf, CanonicalRow;
  }

  /** With fresh uploads an append succeeds exactly when every upload did, nothing
      else fails and the id is unused; its rows then carry the uploaded files in
      order. Otherwise no row changes, and only files whose delete call fails stay. */
  lemma AppendSucceeds(s: Store, id: EmailId, uploads: seq<Upload>, fails: bool, deletable: set<FileId>)
    requires FreshUploads(s.files, uploads)
    ensures var t := Apply(s, Call.Append(id, uploads, fails, deletable));
            if StagesAll(uploads) && !fails && id !in s.rows then
              && t.files == s.files + UploadedIds(uploads)
              && t.rows == s.rows[id := Staged(Ids(uploads))]
              && (forall i :: 0 <= i < |uploads| ==> FileIdOf(Staged(Ids(uploads))[i]) == uploads[i].id)
            else
              t.rows == s.rows && s.files <= t.files <= s.files + (UploadedIds(uploads) - deletable)
  {
    hide FileIdOf, Trim;
    AttemptedWithin(uploads);
    if StagesAll(uploads) {
      forall u | u in uploads ensures u.id in s.files + UploadedIds(uploads) {
      }
      StagedRenders(s.files + UploadedIds(uploads), uploads, Ids(uploads));
      forall i | 0 <= i < |uploads| ensures FileIdOf(Staged(Ids(uploads))[i]) == uploads[i].id {
        assert uploads[i] in uploads;
        FileIdIsKey(Staged(Ids(uploads))[i], uploads[i].id, uploads[i].id);
      }
    }
    FreshStay(s.files, uploads, deletable);
  }

  lemma FreshStay(files: set<FileId>, uploads: seq<Upload>, deletable: set<FileId>)
    requires FreshUploads(files, uploads)
    ensures files <= Cleaned(files, UploadedIds(uploads), deletable) <= files + (UploadedIds(uploads) - deletable)
    ensures var attempted := UploadedIds(Attempted(uploads));
            files <= Cleaned(files, attempted, deletable) <= files + (UploadedIds(uploads) - deletable)
  {
    hide Canonical;
    AttemptedWithin(uploads);
  }
}
